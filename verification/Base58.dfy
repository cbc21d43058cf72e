/**
 `base58Decode` (src/base/bytes.cpp) and `base58Encode` (src/base/bytes.tpp): base conversion in
 place, in a buffer whose size is a rational estimate of a logarithm.
 */
module Base58 {
  import opened Positional
  import opened Types

  /** The table `mapBase58`, by its runs of consecutive entries; -1 marks the other characters. */
  function MapBase58(c: char): (d: int)
    ensures d == -1 || (0 <= d < 58 && Letter(d) == c)
  {
    var k := c as int;
    if '1' <= c <= '9' then k - 49
    else if 'A' <= c <= 'H' then k - 56
    else if 'J' <= c <= 'N' then k - 57
    else if 'P' <= c <= 'Z' then k - 58
    else if 'a' <= c <= 'k' then k - 64
    else if 'm' <= c <= 'z' then k - 65
    else -1
  }

  /** The string `pszBase58`, by the same runs; the digits and letters without 0, I, O and l. */
  function Letter(d: nat): (c: char)
    requires d < 58
    ensures c == '1' <==> d == 0
  {
    if d < 9 then (d + 49) as char
    else if d < 17 then (d + 56) as char
    else if d < 22 then (d + 57) as char
    else if d < 33 then (d + 58) as char
    else if d < 44 then (d + 64) as char
    else (d + 65) as char
  }

  lemma {:induction false} LettersAreMapped()
    ensures forall c: char, d: nat {:trigger MapBase58(c), Letter(d)} | d < 58 :: MapBase58(c) == d <==> c == Letter(d)
    ensures forall d: nat {:trigger Letter(d)} | d < 58 :: MapBase58(Letter(d)) == d
  {}

  /**
   The alphabet is the digits without 0 and the letters without I, O and l, in the order of their codes. With
   58 of them that leaves one table.
   */
  lemma {:induction false} AlphabetInOrder(c: char, c': char)
    ensures MapBase58(c) != -1 <==>
            || '1' <= c <= '9'
            || ('A' <= c <= 'Z' && c != 'I' && c != 'O')
            || ('a' <= c <= 'z' && c != 'l')
    ensures MapBase58(c) != -1 && MapBase58(c') != -1 ==> (c < c' <==> MapBase58(c) < MapBase58(c'))
  {}

  const DIGITS: string := "123456789"
  const UPPER: string := "ABCDEFGHJKLMNPQRSTUVWXYZ"
  const LOWER: string := "abcdefghijkmnopqrstuvwxyz"

  /** Written out, it is the string the program spells with. */
  lemma {:induction false} AlphabetSpelled(d: nat)
    requires d < 58
    ensures |DIGITS + UPPER + LOWER| == 58 && Letter(d) == (DIGITS + UPPER + LOWER)[d]
  {
    if d < 9 {
      assert (DIGITS + UPPER + LOWER)[d] == DIGITS[d];
    } else if d < 33 {
      assert (DIGITS + UPPER + LOWER)[d] == UPPER[d - 9];
    } else {
      assert (DIGITS + UPPER + LOWER)[d] == LOWER[d - 33];
    }
  }

  // ---------- what the two functions compute ----------

  /** Number of leading elements equal to `x`. */
  function Leading<T(==)>(x: T, s: seq<T>): (n: nat)
    ensures n <= |s| && (forall i :: 0 <= i < n ==> s[i] == x) && (n < |s| ==> s[n] != x)
  {
    if s != [] && s[0] == x then 1 + Leading(x, s[1..]) else 0
  }

  function Repeat<T>(x: T, n: nat): (s: seq<T>)
    ensures |s| == n && forall i :: 0 <= i < n ==> s[i] == x
  {
    seq(n, _ => x)
  }

  predicate InAlphabet(s: string) {
    forall i :: 0 <= i < |s| ==> MapBase58(s[i]) != -1
  }

  function Digits(s: string): (ds: seq<nat>)
    requires InAlphabet(s)
    ensures |ds| == |s| && AreDigits(58, ds)
  {
    seq(|s|, i requires 0 <= i < |s| => MapBase58(s[i]))
  }

  function Letters(ds: seq<nat>): (s: string)
    requires AreDigits(58, ds)
    ensures |s| == |ds|
  {
    seq(|ds|, i requires 0 <= i < |ds| => Letter(ds[i]))
  }

  /** One zero byte per leading '1', then the minimal big-endian form of the numeral. */
  function Decoded(s: string): Result<seq<Byte>> {
    var ones := Leading('1', s);
    if InAlphabet(s[ones..])
    then Ok(Repeat(0 as Byte, ones) + AsBytes(ToDigits(256, Value(58, Digits(s[ones..])))))
    else Raised(InvalidArgument)
  }

  function Encoded(bytes: seq<Byte>): string {
    var zeros := Leading(0 as Byte, bytes);
    Repeat('1', zeros) + Letters(ToDigits(58, Value(256, bytes[zeros..])))
  }

  function AsBytes(ds: seq<nat>): (bs: seq<Byte>)
    requires AreDigits(256, ds)
    ensures bs == ds
  {
    seq(|ds|, i requires 0 <= i < |ds| => ds[i] as Byte)
  }

  // ---------- round trips ----------

  lemma {:induction false} LeadingOfRepeat<T>(x: T, n: nat, s: seq<T>)
    requires s != [] ==> s[0] != x
    ensures Leading(x, Repeat(x, n) + s) == n
  {
    var t := Repeat(x, n) + s;
    var m := Leading(x, t);
    assert forall i :: 0 <= i < n ==> t[i] == x;
    assert s != [] ==> t[n] == s[0];
  }

  lemma {:induction false} LeadingIs<T>(x: T, s: seq<T>, n: nat)
    requires n <= |s| && (forall i :: 0 <= i < n ==> s[i] == x) && (n < |s| ==> s[n] != x)
    ensures Leading(x, s) == n
  {
    LeadingOfRepeat(x, n, s[n..]);
    assert s == Repeat(x, n) + s[n..];
  }

  lemma {:induction false} RepeatOfLeading<T>(x: T, s: seq<T>)
    ensures s == Repeat(x, Leading(x, s)) + s[Leading(x, s)..]
  {}

  lemma {:induction false} LettersDigits(ds: seq<nat>)
    requires AreDigits(58, ds)
    ensures InAlphabet(Letters(ds)) && Digits(Letters(ds)) == ds
    ensures Minimal(ds) && ds != [] ==> Letters(ds)[0] != '1'
  {
    LettersAreMapped();
  }

  /** Every byte string, leading zero bytes included, survives encoding and decoding. */
  lemma {:induction false} DecodeEncode(bytes: seq<Byte>)
    ensures Decoded(Encoded(bytes)) == Ok(bytes)
  {
    var zeros := Leading(0 as Byte, bytes);
    var rest := bytes[zeros..];
    var ds := ToDigits(58, Value(256, rest));
    LettersDigits(ds);
    LeadingOfRepeat('1', zeros, Letters(ds));
    assert Encoded(bytes)[zeros..] == Letters(ds);
    MinimalDigitsUnique(256, rest);
    RepeatOfLeading(0 as Byte, bytes);
  }

  /** Every string that decodes at all is the encoding of what it decodes to. */
  lemma {:induction false} EncodeDecode(s: string)
    requires Decoded(s).Ok?
    ensures Encoded(Decoded(s).value) == s
  {
    var ones := Leading('1', s);
    var rest := s[ones..];
    var ds := Digits(rest);
    assert ds != [] ==> Letter(ds[0]) == rest[0];
    MinimalDigitsUnique(58, ds);
    var bs := AsBytes(ToDigits(256, Value(58, ds)));
    LeadingOfRepeat(0 as Byte, ones, bs);
    var bytes := Repeat(0 as Byte, ones) + bs;
    assert bytes[ones..] == bs;
    assert Letters(ds) == rest;
    RepeatOfLeading('1', s);
  }

  /** Hence decoding is injective: two addresses with the same bytes are the same text. */
  lemma {:induction false} DecodeInjective(s: string, t: string)
    requires Decoded(s).Ok? && Decoded(s) == Decoded(t)
    ensures s == t
  {
    EncodeDecode(s);
    EncodeDecode(t);
  }

  /** A string decodes exactly when every character of it is in the alphabet. */
  lemma {:induction false} DecodesIffInAlphabet(s: string)
    ensures Decoded(s).Ok? <==> InAlphabet(s)
  {
    var ones := Leading('1', s);
    RepeatOfLeading('1', s);
    if InAlphabet(s[ones..]) {
      forall i | 0 <= i < |s| ensures MapBase58(s[i]) != -1 {
        if i >= ones { assert s[i] == s[ones..][i - ones]; }
      }
    }
  }

  // ---------- the buffers are large enough ----------

  /** One step of a power written out: the exponents add up, the numbers multiply. */
  lemma {:induction false} PowProduct(b: nat, m: nat, x: nat, n: nat, y: nat)
    requires Pow(b, m) == x && Pow(b, n) == y
    ensures Pow(b, m + n) == x * y
  {
    PowAdd(b, m, n);
  }

  lemma {:induction false} SmallPowers()
    ensures Pow(58, 2) == 3364 && Pow(58, 7) == 2207984167552 && Pow(58, 8) == 128063081718016
    ensures Pow(256, 1) == 256 && Pow(256, 6) == 281474976710656 && Pow(256, 7) == 72057594037927936
  {
    assert Pow(58, 3) == 195112;
    assert Pow(58, 6) == 38068692544;
    assert Pow(256, 3) == 16777216;
  }

  lemma {:induction false} Pow58Power71()
    ensures Pow(58, 71) <= Pow(256, 52)
  {
    hide Pow;
    SmallPowers();
    var p8 := 128063081718016;
    var p16 := p8 * p8;
    var p32 := p16 * p16;
    PowSquared(58, 8, p8);
    PowSquared(58, 16, p16);
    PowSquared(58, 32, p32);
    PowProduct(58, 64, p32 * p32, 7, 2207984167552);
    var q6, q7 := 281474976710656, 72057594037927936;
    var q13 := q6 * q7;
    PowProduct(256, 6, q6, 7, q7);
    PowSquared(256, 13, q13);
    PowSquared(256, 26, q13 * q13);
  }

  lemma {:induction false} Pow256Power100()
    ensures Pow(256, 100) <= Pow(58, 138)
  {
    hide Pow;
    SmallPowers();
    var q6 := 281474976710656;
    var q12 := q6 * q6;
    var q25 := q12 * q12 * 256;
    PowSquared(256, 6, q6);
    PowSquared(256, 12, q12);
    PowProduct(256, 24, q12 * q12, 1, 256);
    PowSquared(256, 25, q25);
    PowSquared(256, 50, q25 * q25);
    var p8 := 128063081718016;
    var p16 := p8 * p8;
    var p32 := p16 * p16;
    var p64 := p32 * p32;
    PowSquared(58, 8, p8);
    PowSquared(58, 16, p16);
    PowSquared(58, 32, p32);
    PowSquared(58, 64, p64);
    PowProduct(58, 128, p64 * p64, 8, p8);
    PowProduct(58, 136, p64 * p64 * p8, 2, 3364);
  }

  lemma {:induction false} PowStrict(c: nat, i: nat, j: nat)
    requires c >= 2 && i < j
    ensures Pow(c, i) < Pow(c, j)
  {
    PowMonotoneExponent(c, i + 1, j);
    MulMonotone(2, c, Pow(c, i), Pow(c, i));
  }

  lemma {:induction false} PowRoot(x: nat, y: nat, e: nat)
    requires Pow(x, e) < Pow(y, e)
    ensures x < y
  {
    if y <= x { PowMonotoneBase(y, x, e); }
  }

  lemma {:induction false} PowScaled(b: nat, c: nat, num: nat, den: nat, n: nat)
    requires Pow(b, den) <= Pow(c, num)
    ensures Pow(b, den * n) <= Pow(c, num * n)
  {
    PowMonotoneBase(Pow(b, den), Pow(c, num), n);
    PowMul(b, den, n);
    PowMul(c, num, n);
  }

  lemma {:induction false} PowSwap(b: nat, m: nat, n: nat)
    ensures Pow(Pow(b, m), n) == Pow(b, n * m)
  {
    PowMul(b, m, n);
    assert m * n == n * m;
  }

  lemma {:induction false} PowCompare(c: nat, i: nat, j: nat, x: nat, y: nat)
    requires c >= 2 && i < j && x <= Pow(c, i) && y == Pow(c, j)
    ensures x < y
  {
    PowStrict(c, i, j);
  }

  /** If b^den <= c^num then b^n < c^size for every size above n * num / den. */
  lemma {:induction false} BufferBound(b: nat, c: nat, num: nat, den: nat, n: nat, size: nat)
    requires c >= 2 && Pow(b, den) <= Pow(c, num)
    requires num * n < size * den
    ensures Pow(b, n) < Pow(c, size)
  {
    PowScaled(b, c, num, den, n);
    PowSwap(b, n, den);
    PowMul(c, size, den);
    PowCompare(c, num * n, size * den, Pow(Pow(b, n), den), Pow(Pow(c, size), den));
    PowRoot(Pow(b, n), Pow(c, size), den);
  }

  lemma {:induction false} PowSum(b: nat, c: nat, m: nat, n: nat, m': nat, n': nat)
    requires Pow(b, m) <= Pow(c, n) && Pow(b, m') <= Pow(c, n')
    ensures Pow(b, m + m') <= Pow(c, n + n')
  {
    PowAdd(b, m, m');
    PowAdd(c, n, n');
    MulMonotone(Pow(b, m), Pow(c, n), Pow(b, m'), Pow(c, n'));
  }

  lemma {:induction false} SixInFive()
    ensures Pow(58, 6) <= Pow(256, 5)
  {
    assert Pow(58, 3) == 58 * 58 * 58 by { assert Pow(58, 2) == 58 * Pow(58, 1) && Pow(58, 1) == 58; }
    PowSquared(58, 3, 195112);
    assert Pow(256, 2) == 65536 by { assert Pow(256, 1) == 256; }
    PowSquared(256, 2, 65536);
    assert Pow(256, 5) == 256 * Pow(256, 4);
    hide Pow;
  }

  /** `n * 733 / 1000 + 1` bytes hold every numeral of `n` base-58 digits, for every n. */
  lemma {:induction false} DecodeBufferSuffices(n: nat)
    ensures Pow(58, n) < Pow(256, n * 733 / 1000 + 1)
  {
    Pow58Power71();
    PowScaled(58, 256, 52, 71, 14);
    hide Pow;
    SixInFive();
    PowSum(58, 256, 994, 728, 6, 5);
    BufferBound(58, 256, 733, 1000, n, n * 733 / 1000 + 1);
  }

  /** `n * 138 / 100 + 1` base-58 digits hold every number of `n` bytes, for every n. */
  lemma {:induction false} EncodeBufferSuffices(n: nat)
    ensures Pow(256, n) < Pow(58, n * 138 / 100 + 1)
  {
    Pow256Power100();
    BufferBound(256, 58, 138, 100, n, n * 138 / 100 + 1);
  }

  // ---------- the conversions in place ----------

  /** The last `length` cells of the buffer hold minimal digits; the cells before them are zero. */
  ghost predicate Holds(base: nat, cells: seq<Byte>, length: nat) {
    && length <= |cells|
    && AreDigits(base, cells)
    && (forall i :: 0 <= i < |cells| - length ==> cells[i] == 0)
    && (length > 0 ==> cells[|cells| - length] != 0)
  }

  lemma {:induction false} HoldsDigits(base: nat, cells: seq<Byte>, length: nat)
    requires base >= 2 && Holds(base, cells, length)
    ensures cells[|cells| - length..] == ToDigits(base, Value(base, cells))
  {
    var zeros, rest := cells[..|cells| - length], cells[|cells| - length..];
    assert cells == zeros + rest;
    LeadingZeros(base, zeros, rest);
    MinimalDigitsUnique(base, rest);
  }

  /** One cell: the digit `r` written and the carry `q` left over account for everything. */
  lemma {:induction false} CarryStep(base: nat, factor: nat, digit: nat, p: nat, cell: nat, vOld: nat, vNew: nat,
                                     carry: nat, q: nat, r: nat)
    requires vNew + carry * p == factor * vOld + digit && carry + factor * cell == q * base + r
    ensures r * p + vNew + q * (base * p) == factor * (cell * p + vOld) + digit
  {
    assert q * (base * p) == q * base * p;
    assert r * p + q * base * p == (q * base + r) * p;
    assert (carry + factor * cell) * p == carry * p + factor * cell * p;
    assert factor * (cell * p + vOld) == factor * cell * p + factor * vOld;
  }

  /** After `i` steps of `Accumulate`: the low cells and the carry hold the new number's low part. */
  ghost predicate Progress(base: nat, factor: nat, digit: nat, before: seq<Byte>, now: seq<Byte>,
                           length: nat, i: nat, carry: nat)
  {
    var n := |before|;
    && |now| == n && i <= n && now[..n - i] == before[..n - i]
    && AreDigits(base, now[n - i..])
    && Value(base, now[n - i..]) + carry * Pow(base, i) == factor * Value(base, before[n - i..]) + digit
    && (i >= length && i > 0 && carry == 0 ==> now[n - i] != 0)
  }

  lemma {:induction false} ProgressStart(base: nat, factor: nat, digit: nat, before: seq<Byte>, length: nat)
    ensures Progress(base, factor, digit, before, before, length, 0, digit)
  {
    assert before[|before|..] == [];
    assert digit * 1 == digit && factor * 0 == 0;
  }

  lemma {:induction false} ProgressStep(base: nat, factor: nat, digit: nat, before: seq<Byte>, now: seq<Byte>,
                                        length: nat, i: nat, carry: nat, q: nat, r: nat)
    requires 2 <= base <= 256 && factor > 0 && Holds(base, before, length)
    requires Progress(base, factor, digit, before, now, length, i, carry)
    requires i < |before| && (carry != 0 || i < length)
    requires carry + factor * now[|before| - 1 - i] == q * base + r && r < base
    ensures Progress(base, factor, digit, before, now[|before| - 1 - i := r], length, i + 1, q)
  {
    hide Value, Pow;
    var n, k := |before|, |before| - 1 - i;
    var after := now[k := r];
    assert now[k] == now[..n - i][k] == before[..n - i][k] == before[k];
    assert after[k..] == [r] + now[n - i..] && before[k..] == [before[k]] + before[n - i..];
    assert after[..k] == now[..n - i][..k] == before[..k];
    ProgressValue(base, factor, digit, before[k], before[n - i..], now[n - i..], carry, q, r);
    LastDigitNonzero(base, factor, before[k], carry, q, r);
  }

  lemma {:induction false} ProgressValue(base: nat, factor: nat, digit: nat, cell: nat, lowBefore: seq<nat>,
                                         low: seq<nat>, carry: nat, q: nat, r: nat)
    requires |low| == |lowBefore| && carry + factor * cell == q * base + r
    requires Value(base, low) + carry * Pow(base, |low|) == factor * Value(base, lowBefore) + digit
    ensures Value(base, [r] + low) + q * Pow(base, |low| + 1) == factor * Value(base, [cell] + lowBefore) + digit
  {
    ValueCons(base, r, low);
    ValueCons(base, cell, lowBefore);
    CarryStep(base, factor, digit, Pow(base, |low|), cell, Value(base, lowBefore), Value(base, low), carry, q, r);
  }

  lemma {:induction false} LastDigitNonzero(base: nat, factor: nat, cell: nat, carry: nat, q: nat, r: nat)
    requires factor > 0 && carry + factor * cell == q * base + r
    ensures (carry != 0 || cell != 0) && q == 0 ==> r != 0
  {
    if cell != 0 { MulMonotone(1, factor, 1, cell); }
  }

  lemma {:induction false} ProgressDone(base: nat, factor: nat, digit: nat, before: seq<Byte>, now: seq<Byte>,
                                        length: nat, i: nat, carry: nat)
    requires 2 <= base <= 256 && Holds(base, before, length)
    requires factor * Value(base, before) + digit < Pow(base, |before|)
    requires Progress(base, factor, digit, before, now, length, i, carry)
    requires i == |before| || (carry == 0 && i >= length)
    ensures Holds(base, now, i) && Value(base, now) == factor * Value(base, before) + digit
  {
    hide Value, Pow;
    var n := |before|;
    var zeros := now[..n - i];
    assert before == zeros + before[n - i..] && now == zeros + now[n - i..];
    forall j | 0 <= j < n - i ensures zeros[j] == 0 {
      assert zeros[j] == before[..n - i][j];
    }
    LeadingZeros(base, zeros, before[n - i..]);
    LeadingZeros(base, zeros, now[n - i..]);
    CarryGone(Pow(base, i), Pow(base, n), Value(base, now), carry, factor * Value(base, before) + digit, i == n);
    forall j | 0 <= j < n ensures now[j] < base {
      if j >= n - i { assert now[j] == now[n - i..][j - (n - i)]; } else { assert now[j] == zeros[j]; }
    }
  }

  /** A full buffer that is large enough leaves no carry. */
  lemma {:induction false} CarryGone(p: nat, whole: nat, v: nat, carry: nat, total: nat, full: bool)
    requires v + carry * p == total < whole
    requires if full then p == whole else carry == 0
    ensures carry == 0 && v == total
  {
    if carry >= 1 { MulMonotone(1, carry, p, p); }
  }

  method DivMod(n: nat, base: nat) returns (quotient: nat, remainder: nat)
    requires base > 0
    ensures n == quotient * base + remainder && remainder < base
  {
    quotient, remainder := n / base, n % base;
  }

  /**
   The inner loop of both functions: multiply the number in the buffer by `factor` and add `digit`,
   from the last cell forwards, until the carry is used up and the old digits are passed.
   */
  method Accumulate(cells: array<Byte>, length: nat, base: nat, factor: nat, digit: nat) returns (i: nat)
    requires 2 <= base <= 256 && factor > 0
    requires Holds(base, cells[..], length)
    requires factor * Value(base, cells[..]) + digit < Pow(base, cells.Length)
    modifies cells
    ensures Holds(base, cells[..], i)
    ensures Value(base, cells[..]) == factor * old(Value(base, cells[..])) + digit
  {
    hide Value, Pow;
    ghost var before := cells[..];
    ProgressStart(base, factor, digit, before, length);
    var carry: nat := digit;
    i := 0;
    while (carry != 0 || i < length) && i < cells.Length
      invariant Progress(base, factor, digit, before, cells[..], length, i, carry)
    {
      var k := cells.Length - 1 - i;
      ghost var now := cells[..];
      var quotient, remainder := DivMod(carry + factor * cells[k], base);
      ProgressStep(base, factor, digit, before, cells[..], length, i, carry, quotient, remainder);
      cells[k], carry := remainder, quotient;
      assert cells[..] == now[k := remainder];
      i := i + 1;
    }
    ProgressDone(base, factor, digit, before, cells[..], length, i, carry);
  }

  /** The numeral read so far fits the buffer, one more digit included. */
  lemma {:induction false} PrefixFits(b: nat, c: nat, ds: seq<nat>, k: nat, n: nat, size: nat)
    requires b > 0 && k < |ds| <= n && AreDigits(b, ds) && Pow(b, n) <= Pow(c, size)
    ensures ds[..k + 1][..k] == ds[..k]
    ensures Value(b, ds[..k + 1]) == b * Value(b, ds[..k]) + ds[k]
    ensures b * Value(b, ds[..k]) + ds[k] < Pow(c, size)
  {
    assert ds[..k + 1][..k] == ds[..k];
    ValueBound(b, ds[..k + 1]);
    PowMonotoneExponent(b, k + 1, n);
  }

  /** `std::string_view` over a terminated string: the position past the end reads the terminator. */
  function CharAt(s: string, i: nat): char
    requires i <= |s|
  {
    if i < |s| then s[i] else '\0'
  }

  method Decode(base58: string) returns (r: Result<seq<Byte>>)
    requires forall i :: 0 <= i < |base58| ==> base58[i] < 128 as char
    ensures r == Decoded(base58)
  {
    hide Value, Pow, ToDigits;
    var currentPos := 0;
    var zeroesCount := 0;
    while CharAt(base58, currentPos) == '1'
      invariant zeroesCount == currentPos <= |base58|
      invariant forall i :: 0 <= i < currentPos ==> base58[i] == '1'
      decreases |base58| - currentPos
    {
      zeroesCount := zeroesCount + 1;
      currentPos := currentPos + 1;
    }
    LeadingIs('1', base58, currentPos);

    var size := (|base58| - currentPos) * 733 / 1000 + 1;
    DecodeBufferSuffices(|base58| - currentPos);
    var b256 := new Byte[size](_ => 0);
    var length := DecodeDigits(base58, currentPos, b256);
    if length.Raised? {
      return Raised(InvalidArgument);
    }
    HoldsDigits(256, b256[..], length.value);
    return Ok(Repeat(0 as Byte, zeroesCount) + b256[size - length.value..]);
  }

  /** The second loop of `base58Decode`, which stops at the first character without a digit. */
  method DecodeDigits(base58: string, start: nat, b256: array<Byte>) returns (r: Result<nat>)
    requires start <= |base58| && (forall i :: 0 <= i < b256.Length ==> b256[i] == 0)
    requires Pow(58, |base58| - start) <= Pow(256, b256.Length)
    modifies b256
    ensures r.Ok? <==> InAlphabet(base58[start..])
    ensures r.Raised? ==> r.error == InvalidArgument
    ensures r.Ok? ==> Holds(256, b256[..], r.value) && Value(256, b256[..]) == Value(58, Digits(base58[start..]))
  {
    hide Value, Pow;
    ghost var rest := base58[start..];
    ValueZeros(256, b256[..]);
    ValueZeros(58, Digits(rest[..0]));
    var length := 0;
    for currentPos := start to |base58|
      invariant InAlphabet(rest[..currentPos - start])
      invariant Holds(256, b256[..], length)
      invariant Value(256, b256[..]) == Value(58, Digits(rest[..currentPos - start]))
    {
      ghost var k := currentPos - start;
      var carry := MapBase58(base58[currentPos]);
      if carry == -1 {
        assert rest[k] == base58[currentPos];
        return Raised(InvalidArgument);
      }
      ghost var ds := Digits(rest[..k + 1]);
      assert ds[..k + 1] == ds && ds[..k] == Digits(rest[..k]);
      PrefixFits(58, 256, ds, k, |rest|, b256.Length);
      length := Accumulate(b256, length, 256, 58, carry);
    }
    assert rest[..|rest|] == rest;
    return Ok(length);
  }

  method Encode(bytes: seq<Byte>) returns (s: string)
    ensures s == Encoded(bytes)
  {
    var currentPos := 0;
    var zeroesCount := 0;
    while currentPos != |bytes| && bytes[currentPos] == 0
      invariant zeroesCount == currentPos <= |bytes|
      invariant forall i :: 0 <= i < currentPos ==> bytes[i] == 0
      decreases |bytes| - currentPos
    {
      currentPos := currentPos + 1;
      zeroesCount := zeroesCount + 1;
    }
    LeadingIs(0 as Byte, bytes, currentPos);
    s := EncodeFrom(bytes, currentPos, Repeat('1', zeroesCount));
  }

  /** The rest of `base58Encode`, once the leading zero bytes are counted. */
  method EncodeFrom(bytes: seq<Byte>, start: nat, prefix: string) returns (s: string)
    requires start <= |bytes|
    ensures s == prefix + Letters(ToDigits(58, Value(256, bytes[start..])))
  {
    hide Value, Pow, ToDigits;
    var size := |bytes| * 138 / 100 + 1;
    EncodeBufferSuffices(|bytes|);
    var b58 := new Byte[size](_ => 0);
    var length := EncodeDigits(bytes, start, b58);
    HoldsDigits(58, b58[..], length);
    ghost var ds := b58[size - length..];
    assert length > 0 ==> ds[0] == b58[..][size - length];
    var it := SkipZeros(b58, size - length);
    s := Spell(prefix, b58, it);
  }

  /** The second loop of `base58Encode`. */
  method EncodeDigits(bytes: seq<Byte>, start: nat, b58: array<Byte>) returns (length: nat)
    requires start <= |bytes| && (forall i :: 0 <= i < b58.Length ==> b58[i] == 0)
    requires Pow(256, |bytes|) <= Pow(58, b58.Length)
    modifies b58
    ensures Holds(58, b58[..], length) && Value(58, b58[..]) == Value(256, bytes[start..])
  {
    hide Value, Pow;
    ghost var rest := bytes[start..];
    ValueZeros(58, b58[..]);
    ValueZeros(256, rest[..0]);
    length := 0;
    for currentPos := start to |bytes|
      invariant Holds(58, b58[..], length)
      invariant Value(58, b58[..]) == Value(256, rest[..currentPos - start])
    {
      PrefixFits(256, 58, rest, currentPos - start, |bytes|, b58.Length);
      length := Accumulate(b58, length, 58, 256, bytes[currentPos]);
    }
    assert rest[..|rest|] == rest;
  }

  /** The third loop of `base58Encode`: pass over leading zero digits. */
  method SkipZeros(b58: array<Byte>, start: nat) returns (it: nat)
    requires start <= b58.Length
    ensures it == start + Leading(0 as Byte, b58[start..])
  {
    it := start;
    while it != b58.Length && b58[it] == 0
      invariant start <= it <= b58.Length
      invariant forall j :: start <= j < it ==> b58[j] == 0
      decreases b58.Length - it
    {
      it := it + 1;
    }
    LeadingIs(0 as Byte, b58[start..], it - start);
  }

  /** The last loop of `base58Encode`: append the letters of the digits from `start` on. */
  method Spell(prefix: string, b58: array<Byte>, start: nat) returns (s: string)
    requires start <= b58.Length && AreDigits(58, b58[start..])
    ensures s == prefix + Letters(b58[start..])
  {
    s := prefix;
    ghost var ds := b58[start..];
    for it := start to b58.Length
      invariant s == prefix + Letters(ds[..it - start])
    {
      assert ds[..it + 1 - start] == ds[..it - start] + [b58[it]];
      s := s + [Letter(b58[it])];
    }
    assert ds[..|ds|] == ds;
  }
}
