/**
 Keccak-256 of src/base/hash.cpp: a context fed in chunks, padded in place and read out, proved to
 compute KECCAK[512] of FIPS 202 on everything it was fed.
 */
module Keccak {
  import opened Types
  import opened Fips202
  import opened KeccakPermutation
  import opened Positional

  const BLOCK_SIZE: nat := 136
  const MESSAGE_SIZE: nat := 192
  const LENGTH: nat := 32

  // ---------- bytes as bits, least significant first ----------

  function Bits(m: seq<Byte>): (s: seq<bool>)
    ensures |s| == 8 * |m|
    ensures forall k :: 0 <= k < 8 * |m| ==> s[k] == HasBit(m[k / 8], k % 8)
  {
    seq(8 * |m|, k requires 0 <= k < 8 * |m| => HasBit(m[k / 8], k % 8))
  }

  lemma {:induction false} BitsConcat(a: seq<Byte>, b: seq<Byte>)
    ensures Bits(a + b) == Bits(a) + Bits(b)
  {
    hide HasBit;
    forall k | 0 <= k < 8 * |a + b| ensures Bits(a + b)[k] == (Bits(a) + Bits(b))[k] {
      if k >= 8 * |a| {
        assert k / 8 == |a| + (k - 8 * |a|) / 8 && k % 8 == (k - 8 * |a|) % 8;
      }
    }
  }

  lemma {:induction false} HalfDrops(n: nat, k: nat)
    requires k < 7
    ensures HasBit(n, k + 1) == HasBit(n / 2, k)
  {
    assert n / 4 == n / 2 / 2;
    assert n / 8 == n / 2 / 4;
    assert n / 16 == n / 2 / 8;
    assert n / 32 == n / 2 / 16;
    assert n / 64 == n / 2 / 32;
    assert n / 128 == n / 2 / 64;
  }

  /** Two numbers below 2^n with the same n bits are the same. */
  lemma {:induction false} SameBits(a: nat, b: nat, n: nat)
    requires n <= 8 && a < Pow(2, n) && b < Pow(2, n)
    requires forall k :: 0 <= k < n ==> HasBit(a, k) == HasBit(b, k)
    ensures a == b
  {
    if n == 0 {
    } else {
      assert HasBit(a, 0) == HasBit(b, 0);
      assert a % 2 == b % 2;
      hide HasBit;
      forall k | 0 <= k < n - 1 ensures HasBit(a / 2, k) == HasBit(b / 2, k) {
        HalfDrops(a, k);
        HalfDrops(b, k);
      }
      SameBits(a / 2, b / 2, n - 1);
    }
  }

  lemma {:induction false} BitsInjective(a: seq<Byte>, b: seq<Byte>)
    requires Bits(a) == Bits(b)
    ensures a == b
  {
    assert |a| == |b|;
    forall i | 0 <= i < |a| ensures a[i] == b[i] {
      forall k | 0 <= k < 8 ensures HasBit(a[i], k) == HasBit(b[i], k) {
        assert Bits(a)[8 * i + k] == HasBit(a[i], k) && Bits(b)[8 * i + k] == HasBit(b[i], k);
      }
      assert Pow(2, 8) == 256 by { TwoToTheEighth(); }
      SameBits(a[i], b[i], 8);
    }
  }

  // ---------- lanes in a little-endian memory ----------

  /** Word `i` of the block, read as a uint64_t. */
  function LaneOf(block: seq<Byte>, i: nat): (l: Lane)
    requires 8 * i + 8 <= |block|
    ensures forall z :: 0 <= z < 64 ==> l[z] == HasBit(block[8 * i + z / 8], z % 8)
  {
    seq(64, z requires 0 <= z < 64 => HasBit(block[8 * i + z / 8], z % 8))
  }

  /** The number whose bits these are. */
  function Packed(bits: seq<bool>): nat {
    if bits == [] then 0 else (if bits[0] then 1 else 0) + 2 * Packed(bits[1..])
  }

  lemma {:induction false} PackedBit(bits: seq<bool>, i: nat)
    requires i < |bits| <= 8
    ensures HasBit(Packed(bits), i) == bits[i]
  {
    if i == 0 {
    } else {
      assert Packed(bits) / 2 == Packed(bits[1..]);
      hide HasBit, Packed;
      HalfDrops(Packed(bits), i - 1);
      PackedBit(bits[1..], i - 1);
    }
  }

  lemma {:induction false} PackedBelow(bits: seq<bool>)
    ensures Packed(bits) < Pow(2, |bits|)
  {
    if bits == [] {
    } else {
      PackedBelow(bits[1..]);
    }
  }

  lemma {:induction false} TwoToTheEighth()
    ensures Pow(2, 8) == 256
  {
    assert Pow(2, 4) == 16;
  }

  /** Byte `k` of the word. */
  function ByteOf(l: Lane, k: nat): (b: Byte)
    requires k < 8
  {
    PackedBelow(l[8 * k..8 * k + 8]);
    TwoToTheEighth();
    Packed(l[8 * k..8 * k + 8])
  }

  lemma {:induction false} ByteOfBit(l: Lane, k: nat, i: nat)
    requires k < 8 && i < 8
    ensures HasBit(ByteOf(l, k), i) == l[8 * k + i]
  {
    PackedBit(l[8 * k..8 * k + 8], i);
  }

  // ---------- the sponge, block by block ----------

  lemma {:induction false} AbsorbSplit(a: State, p: seq<bool>, q: seq<bool>)
    requires |p| % RATE_BITS == 0 && |q| % RATE_BITS == 0
    ensures |p + q| % RATE_BITS == 0 && Absorb(a, p + q) == Absorb(Absorb(a, p), q)
    decreases |p|
  {
    hide KeccakF, XorBlock;
    if p == [] {
      assert p + q == q;
    } else {
      Multiple(|p|);
      var (block, rest) := (p[..RATE_BITS], p[RATE_BITS..]);
      assert (p + q)[..RATE_BITS] == block && (p + q)[RATE_BITS..] == rest + q;
      AbsorbSplit(KeccakF(XorBlock(a, block)), rest, q);
    }
  }

  predicate Whole(m: seq<Byte>) {
    |m| % BLOCK_SIZE == 0
  }

  /** The state after the whole blocks `m`. */
  function Absorbed(m: seq<Byte>): State
    requires Whole(m)
  {
    Absorb(ZeroState(), Bits(m))
  }

  lemma {:induction false} AbsorbBlock(m: seq<Byte>, block: seq<Byte>)
    requires Whole(m) && |block| == BLOCK_SIZE
    ensures Whole(m + block) && Absorbed(m + block) == KeccakF(XorBlock(Absorbed(m), Bits(block)))
  {
    hide KeccakF, XorBlock, Bits;
    BitsConcat(m, block);
    AbsorbSplit(ZeroState(), Bits(m), Bits(block));
    AbsorbOne(Absorbed(m), Bits(block));
  }

  lemma {:induction false} AbsorbOne(a: State, block: seq<bool>)
    requires |block| == RATE_BITS
    ensures Absorb(a, block) == KeccakF(XorBlock(a, block))
  {
    assert block[..RATE_BITS] == block && block[RATE_BITS..] == [];
  }

  /** What a context holds once it was fed `m`: whole blocks in the state, the tail in the buffer. */
  predicate Holds(hash: State, message: seq<Byte>, rest: nat, m: seq<Byte>)
    requires |message| == MESSAGE_SIZE
  {
    && rest == |m| % BLOCK_SIZE
    && hash == Absorbed(m[..|m| - rest])
    && message[..rest] == m[|m| - rest..]
  }

  /** Whatever chunks a message came in, the lanes, `rest` and the live part of the buffer are the same. */
  lemma {:induction false} ChunkingIsInvisible(hash: State, message: seq<Byte>, rest: nat,
                                               other: State, otherMessage: seq<Byte>, otherRest: nat, m: seq<Byte>)
    requires |message| == MESSAGE_SIZE == |otherMessage|
    requires Holds(hash, message, rest, m) && Holds(other, otherMessage, otherRest, m)
    ensures hash == other && rest == otherRest < BLOCK_SIZE && message[..rest] == otherMessage[..rest]
  {}

  /** The digest: the first 32 bytes of the state after the padded message. */
  function Digest(m: seq<Byte>): (d: seq<Byte>)
    ensures |d| == LENGTH
  {
    FirstBytes(Absorb(ZeroState(), Bits(m) + Pad(8 * |m|)))
  }

  function FirstBytes(a: State): (d: seq<Byte>)
    ensures |d| == LENGTH
  {
    seq(LENGTH, k requires 0 <= k < LENGTH => ByteOf(a[k / 8], k % 8))
  }

  lemma {:induction false} FirstBytesBits(a: State)
    ensures Bits(FirstBytes(a)) == Trunc(a, 8 * LENGTH)
  {
    hide HasBit, ByteOf, FirstBytes, Bits;
    forall k | 0 <= k < 8 * LENGTH ensures Bits(FirstBytes(a))[k] == a[k / 64][k % 64] {
      FirstBytesBit(a, k / 64, k % 64 / 8, k % 8);
      SplitIndex(k);
    }
  }

  lemma {:induction false} SplitIndex(k: nat)
    ensures 64 * (k / 64) + 8 * (k % 64 / 8) + k % 8 == k && 8 * (k % 64 / 8) + k % 8 == k % 64
  {}

  lemma {:induction false} FirstBytesBit(a: State, word: nat, byte: nat, bit: nat)
    requires word < 4 && byte < 8 && bit < 8
    ensures Bits(FirstBytes(a))[64 * word + 8 * byte + bit] == a[word][8 * byte + bit]
  {
    hide HasBit, ByteOf;
    var k := 64 * word + 8 * byte + bit;
    assert k / 8 == 8 * word + byte && k % 8 == bit;
    assert (8 * word + byte) / 8 == word && (8 * word + byte) % 8 == byte;
    ByteOfBit(a[word], byte, bit);
  }

  /** The digest is KECCAK[512] of the message, 256 bits of it. */
  lemma {:induction false} DigestIsKeccak512(m: seq<Byte>)
    ensures Bits(Digest(m)) == Keccak512(Bits(m), 8 * LENGTH)
  {
    hide Absorb, FirstBytes, Trunc, Bits;
    FirstBytesBits(Absorb(ZeroState(), Bits(m) + Pad(8 * |m|)));
  }

  // ---------- padding in the buffer ----------

  /** `b | 0x01` */
  function OrLow(b: Byte): Byte { if b % 2 == 1 then b else b + 1 }

  /** `b | 0x80` */
  function OrHigh(b: Byte): Byte { if b >= 128 then b else b + 128 }

  /** The last block: the tail, zeros, and the two marks, in one byte when only one is free. */
  function LastBlock(tail: seq<Byte>): (b: seq<Byte>)
    requires |tail| < BLOCK_SIZE
    ensures |b| == BLOCK_SIZE
  {
    var zeroed := tail + ZeroBytes(BLOCK_SIZE - |tail|);
    var marked := zeroed[|tail| := OrLow(zeroed[|tail|])];
    marked[BLOCK_SIZE - 1 := OrHigh(marked[BLOCK_SIZE - 1])]
  }

  lemma {:induction false} MarkBits(i: nat)
    requires i < 8
    ensures HasBit(0, i) == false && HasBit(1, i) == (i == 0) && HasBit(128, i) == (i == 7)
    ensures HasBit(129, i) == (i == 0 || i == 7)
  {
    assert i == 0 || i == 1 || i == 2 || i == 3 || i == 4 || i == 5 || i == 6 || i == 7;
  }

  lemma {:induction false} LastBlockByte(tail: seq<Byte>, k: nat)
    requires |tail| < BLOCK_SIZE && k < BLOCK_SIZE
    ensures LastBlock(tail)[k] ==
            if k < |tail| then tail[k]
            else if k == |tail| then (if k == BLOCK_SIZE - 1 then 129 else 1)
            else if k == BLOCK_SIZE - 1 then 128 else 0
  {}

  /** The marks are pad10*1 of the whole message. */
  lemma {:induction false} LastBlockIsPadded(tail: seq<Byte>, bits: nat)
    requires |tail| < BLOCK_SIZE && bits % RATE_BITS == 8 * |tail|
    ensures Bits(LastBlock(tail)) == Bits(tail) + Pad(bits)
  {
    hide HasBit, LastBlock;
    PadZeros(bits, |tail|);
    forall k | 0 <= k < 8 * BLOCK_SIZE ensures Bits(LastBlock(tail))[k] == (Bits(tail) + Pad(bits))[k] {
      LastBlockByte(tail, k / 8);
      MarkBits(k % 8);
    }
  }

  lemma {:induction false} PadZeros(bits: nat, tail: nat)
    requires tail < BLOCK_SIZE && bits % RATE_BITS == 8 * tail
    ensures Pad(bits) == [true] + Zeros(RATE_BITS - 2 - 8 * tail) + [true]
  {
    var j := RATE_BITS - 2 - 8 * tail;
    assert 0 - bits - 2 == j - RATE_BITS * (bits / RATE_BITS + 1);
    assert (0 - bits - 2) % RATE_BITS == j;
  }

  lemma {:induction false} Finished(m: seq<Byte>, rest: nat)
    requires rest == |m| % BLOCK_SIZE
    ensures Digest(m) == FirstBytes(KeccakF(XorBlock(Absorbed(m[..|m| - rest]), Bits(LastBlock(m[|m| - rest..])))))
  {
    hide KeccakF, XorBlock, FirstBytes, LastBlock, Bits, Pad, Absorb;
    var whole, tail := m[..|m| - rest], m[|m| - rest..];
    assert m == whole + tail;
    BitsConcat(whole, tail);
    LastBlockIsPadded(tail, 8 * |m|);
    assert Bits(m) + Pad(8 * |m|) == Bits(whole) + Bits(LastBlock(tail));
    AbsorbSplit(ZeroState(), Bits(whole), Bits(LastBlock(tail)));
    AbsorbOne(Absorbed(whole), Bits(LastBlock(tail)));
  }

  // ---------- sha3_process_block ----------

  method ProcessBlock(hash: array<Lane>, block: seq<Byte>)
    requires hash.Length == 25 && |block| == BLOCK_SIZE
    modifies hash
    ensures hash[..] == KeccakF(XorBlock(old(hash[..]), Bits(block)))
  {
    hide KeccakF, XorBlock, XorLane, LaneOf, Bits;
    ghost var before: State := hash[..];
    for i := 0 to 17
      invariant forall k :: 0 <= k < 25 ==> hash[k] == if k < i then XorLane(before[k], LaneOf(block, k)) else before[k]
    {
      hash[i] := XorLane(hash[i], LaneOf(block, i));
    }
    BlockLanes(before, hash[..], block);
    Sha3Permutation(hash);
  }

  lemma {:induction false} BlockLanes(a: State, r: State, block: seq<Byte>)
    requires |block| == BLOCK_SIZE
    requires forall k :: 0 <= k < 25 ==> r[k] == if k < 17 then XorLane(a[k], LaneOf(block, k)) else a[k]
    ensures r == XorBlock(a, Bits(block))
  {
    hide XorBlock, LaneOf, HasBit, XorLane, Bits;
    forall i, z | 0 <= i < 25 && 0 <= z < 64 ensures r[i][z] == XorBlock(a, Bits(block))[i][z] {
      if i < 17 {
        LaneBit(block, i, z);
        assert r[i][z] == (a[i][z] != LaneOf(block, i)[z]);
      }
    }
    SameState(r, XorBlock(a, Bits(block)));
  }

  lemma {:induction false} LaneBit(block: seq<Byte>, i: nat, z: nat)
    requires |block| == BLOCK_SIZE && i < 17 && z < 64
    ensures LaneOf(block, i)[z] == Bits(block)[64 * i + z]
  {
    hide HasBit;
    assert (64 * i + z) / 8 == 8 * i + z / 8 && (64 * i + z) % 8 == z % 8;
  }

  method CopyInto(to: array<Byte>, at: nat, from: seq<Byte>)
    requires at + |from| <= to.Length
    modifies to
    ensures to[..] == old(to[..at]) + from + old(to[at + |from|..])
  {
    for i := 0 to |from|
      invariant forall k :: 0 <= k < to.Length ==> to[k] == if at <= k < at + i then from[k - at] else old(to[k])
    {
      to[at + i] := from[i];
    }
  }

  // ---------- the context ----------

  class Context {
    const hash: array<Lane>
    const message: array<Byte>
    var rest: nat
    /** Everything fed so far. */
    ghost var fed: seq<Byte>

    ghost predicate Valid()
      reads this, hash, message
    {
      && hash.Length == 25 && message.Length == MESSAGE_SIZE
      && Holds(hash[..], message[..], rest, fed)
    }

    /** keccak_init */
    constructor ()
      ensures Valid() && fed == [] && fresh(hash) && fresh(message)
    {
      hash := new Lane[25](_ => ZeroLane());
      message := new Byte[MESSAGE_SIZE](_ => 0);
      rest := 0;
      fed := [];
      new;
      assert hash[..] == ZeroState();
      assert Bits([]) == [];
    }

    /** keccak_update, with the address the chunk lies at. */
    method Update(chunk: seq<Byte>, address: nat)
      requires Valid() && |chunk| < 0x1_0000
      modifies this, hash, message
      ensures Valid() && fed == old(fed) + chunk
    {
      hide Absorbed, Holds, KeccakF, XorBlock, Bits, Whole;
      ghost var m := fed;
      var idx := rest;
      var size := |chunk|;
      var msg := 0;
      Starts(hash[..], message[..], idx, m, chunk);
      rest := (rest + size) % BLOCK_SIZE;
      fed := fed + chunk;
      if idx != 0 {
        var left := BLOCK_SIZE - idx;
        CopyInto(message, idx, chunk[..if size < left then size else left]);
        if size < left {
          Stays(hash[..], message[..], idx, m, chunk);
          return;
        }
        Completes(hash[..], message[..], idx, m, chunk);
        ProcessBlock(hash, message[..BLOCK_SIZE]);
        msg := left;
        size := size - left;
      }
      msg := ProcessBlocks(m, chunk, msg, address);
      size := |chunk| - msg;
      if size != 0 {
        CopyInto(message, 0, chunk[msg..]);
      }
      Ends(hash[..], message[..], rest, m, chunk, msg);
    }

    /** The loop of keccak_update over whole blocks, from byte `start` of the chunk on. */
    method ProcessBlocks(ghost m: seq<Byte>, chunk: seq<Byte>, start: nat, address: nat) returns (msg: nat)
      requires hash.Length == 25 && message.Length == MESSAGE_SIZE
      requires start <= |chunk| && Whole(m + chunk[..start]) && hash[..] == Absorbed(m + chunk[..start])
      modifies hash, message
      ensures start <= msg <= |chunk| < msg + BLOCK_SIZE && Whole(m + chunk[..msg])
      ensures hash[..] == Absorbed(m + chunk[..msg])
    {
      hide Absorbed, KeccakF, XorBlock, Bits, Whole;
      msg := start;
      var size: int := |chunk| - start;
      while size >= BLOCK_SIZE
        invariant start <= msg && 0 <= size && msg + size == |chunk| && Whole(m + chunk[..msg])
        invariant hash[..] == Absorbed(m + chunk[..msg])
      {
        var block: seq<Byte>;
        if (address + msg) % 8 == 0 {
          block := chunk[msg..msg + BLOCK_SIZE];
        } else {
          CopyInto(message, 0, chunk[msg..msg + BLOCK_SIZE]);
          block := message[..BLOCK_SIZE];
        }
        assert block == chunk[msg..msg + BLOCK_SIZE];
        AbsorbNext(m, chunk, msg);
        ProcessBlock(hash, block);
        msg := msg + BLOCK_SIZE;
        size := size - BLOCK_SIZE;
      }
    }

    /** keccak_final: the context is spent afterwards. */
    method Final() returns (result: seq<Byte>)
      requires Valid()
      modifies hash, message
      ensures result == Digest(old(fed))
    {
      hide Absorbed, KeccakF, XorBlock, Bits, Digest;
      ghost var tail := message[..rest];
      CopyInto(message, rest, ZeroBytes(BLOCK_SIZE - rest));
      assert message[..BLOCK_SIZE] == tail + ZeroBytes(BLOCK_SIZE - rest);
      message[rest] := OrLow(message[rest]);
      message[BLOCK_SIZE - 1] := OrHigh(message[BLOCK_SIZE - 1]);
      assert message[..BLOCK_SIZE] == LastBlock(tail);
      Finished(fed, rest);
      ProcessBlock(hash, message[..BLOCK_SIZE]);
      result := FirstBytes(hash[..]);
    }
  }

  lemma {:induction false} Starts(hash: State, message: seq<Byte>, idx: nat, m: seq<Byte>, chunk: seq<Byte>)
    requires |message| == MESSAGE_SIZE && Holds(hash, message, idx, m)
    ensures idx < BLOCK_SIZE && idx <= |m| && Whole(m[..|m| - idx])
    ensures (idx + |chunk|) % BLOCK_SIZE == (|m| + |chunk|) % BLOCK_SIZE
    ensures message[..idx] == m[|m| - idx..] && hash == Absorbed(m[..|m| - idx])
    ensures idx == 0 ==> m[..|m| - idx] == m + chunk[..0]
  {
    hide Absorbed;
    WholePart(|m|);
    SameRest(|m|, |chunk|);
  }

  lemma {:induction false} SameRest(n: nat, k: nat)
    ensures (n % BLOCK_SIZE + k) % BLOCK_SIZE == (n + k) % BLOCK_SIZE
  {
    assert n + k == BLOCK_SIZE * (n / BLOCK_SIZE) + (n % BLOCK_SIZE + k);
  }

  lemma {:induction false} WholePart(n: nat)
    ensures n % BLOCK_SIZE <= n && (n - n % BLOCK_SIZE) % BLOCK_SIZE == 0
  {}

  /** A chunk that does not fill the block only grows the tail. */
  lemma {:induction false} Stays(hash: State, message: seq<Byte>, idx: nat, m: seq<Byte>, chunk: seq<Byte>)
    requires |message| == MESSAGE_SIZE && idx + |chunk| < BLOCK_SIZE && idx <= |m| && Whole(m[..|m| - idx])
    requires hash == Absorbed(m[..|m| - idx]) && message[..idx + |chunk|] == m[|m| - idx..] + chunk
    ensures (idx + |chunk|) % BLOCK_SIZE == idx + |chunk|
    ensures Holds(hash, message, idx + |chunk|, m + chunk)
  {
    hide Absorbed;
    assert |m| + |chunk| == BLOCK_SIZE * ((|m| - idx) / BLOCK_SIZE) + (idx + |chunk|);
    assert (|m| + |chunk|) % BLOCK_SIZE == idx + |chunk|;
    assert (m + chunk)[..|m| - idx] == m[..|m| - idx];
    assert (m + chunk)[|m| - idx..] == m[|m| - idx..] + chunk;
  }

  /** The chunk's first bytes fill the block that was begun. */
  lemma {:induction false} Completes(hash: State, message: seq<Byte>, idx: nat, m: seq<Byte>, chunk: seq<Byte>)
    requires |message| == MESSAGE_SIZE && idx <= |m| && idx < BLOCK_SIZE <= idx + |chunk| && Whole(m[..|m| - idx])
    requires hash == Absorbed(m[..|m| - idx]) && message[..BLOCK_SIZE] == m[|m| - idx..] + chunk[..BLOCK_SIZE - idx]
    ensures Whole(m + chunk[..BLOCK_SIZE - idx])
    ensures Absorbed(m + chunk[..BLOCK_SIZE - idx]) == KeccakF(XorBlock(hash, Bits(message[..BLOCK_SIZE])))
  {
    hide Absorbed, KeccakF, XorBlock, Whole;
    AbsorbBlock(m[..|m| - idx], message[..BLOCK_SIZE]);
    assert m[..|m| - idx] + message[..BLOCK_SIZE] == m + chunk[..BLOCK_SIZE - idx];
  }

  lemma {:induction false} AbsorbNext(m: seq<Byte>, chunk: seq<Byte>, msg: nat)
    requires msg + BLOCK_SIZE <= |chunk| && Whole(m + chunk[..msg])
    ensures Whole(m + chunk[..msg + BLOCK_SIZE])
    ensures Absorbed(m + chunk[..msg + BLOCK_SIZE]) ==
            KeccakF(XorBlock(Absorbed(m + chunk[..msg]), Bits(chunk[msg..msg + BLOCK_SIZE])))
  {
    hide Absorbed, KeccakF, XorBlock, Whole;
    AbsorbBlock(m + chunk[..msg], chunk[msg..msg + BLOCK_SIZE]);
    assert m + chunk[..msg] + chunk[msg..msg + BLOCK_SIZE] == m + chunk[..msg + BLOCK_SIZE];
  }

  /** What is left of the chunk is the new tail. */
  lemma {:induction false} Ends(hash: State, message: seq<Byte>, rest: nat, m: seq<Byte>, chunk: seq<Byte>, msg: nat)
    requires |message| == MESSAGE_SIZE && msg <= |chunk| < msg + BLOCK_SIZE && Whole(m + chunk[..msg])
    requires rest == (|m| + |chunk|) % BLOCK_SIZE && hash == Absorbed(m + chunk[..msg])
    requires message[..|chunk| - msg] == chunk[msg..]
    ensures Holds(hash, message, rest, m + chunk)
  {
    hide Absorbed;
    var n := |chunk| - msg;
    assert |m| + |chunk| == BLOCK_SIZE * ((|m| + msg) / BLOCK_SIZE) + n;
    assert rest == n;
    assert (m + chunk)[..|m + chunk| - n] == m + chunk[..msg];
    assert (m + chunk)[|m + chunk| - n..] == chunk[msg..];
  }

  // ---------- Keccak256::compute ----------

  /** The size reaches keccak_update as a uint16_t. */
  function Hashed(data: seq<Byte>): seq<Byte> {
    data[..|data| % 0x1_0000]
  }

  method Compute(data: seq<Byte>, address: nat) returns (digest: seq<Byte>)
    ensures digest == Digest(Hashed(data))
    ensures |data| < 0x1_0000 ==> Bits(digest) == Keccak512(Bits(data), 8 * LENGTH)
    ensures |data| < 0x1_0000 ==>
              forall d: seq<Byte> :: Bits(d) == Keccak512(Bits(data), 8 * LENGTH) ==> d == digest
  {
    hide Digest, Keccak512, Bits, Holds;
    var context := new Context();
    context.Update(Hashed(data), address);
    assert context.fed == Hashed(data);
    digest := context.Final();
    DigestIsKeccak512(Hashed(data));
    WholeInputHashedIff(data);
    forall d: seq<Byte> | Bits(d) == Bits(digest) ensures d == digest {
      BitsInjective(d, digest);
    }
  }

  /** All of the input is hashed exactly when it is shorter than 65536 bytes. */
  lemma {:induction false} WholeInputHashedIff(data: seq<Byte>)
    ensures Hashed(data) == data <==> |data| < 0x1_0000
  {
    if |data| < 0x1_0000 { assert Hashed(data) == data; }
    else { assert |Hashed(data)| < |data|; }
  }

  /** From there on two different inputs of one length share a digest. */
  lemma {:induction false} LongInputsCollide(n: nat)
    requires n >= 0x1_0000
    ensures exists a: seq<Byte>, b: seq<Byte> :: |a| == n == |b| && a != b && Digest(Hashed(a)) == Digest(Hashed(b))
  {
    hide Digest;
    var a := ZeroBytes(n);
    var b := a[n - 1 := 1];
    assert a[n - 1] != b[n - 1];
    assert Hashed(a) == Hashed(b);
  }
}
