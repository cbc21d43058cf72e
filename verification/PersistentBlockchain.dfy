/** `PersistentBlockchain` (src/core/blockchain.cpp): the chain written through to a key-value store. */
module PersistentBlockchain {
  import opened Types
  import opened Blocks
  import opened Chain
  import Blockchain

  // ---------- the store ----------

  datatype DataType = SYSTEM | BLOCK | PREVIOUS_BLOCK_HASH

  /** What a value decodes to; serialization is taken to be invertible. */
  datatype Record = BlockRecord(block: Block) | HashRecord(hash: Hash)

  type Store = map<seq<Byte>, Record>

  function Tag(t: DataType): Byte {
    match t
    case SYSTEM => 1
    case BLOCK => 2
    case PREVIOUS_BLOCK_HASH => 3
  }

  function ToBytes(t: DataType, key: seq<Byte>): seq<Byte> {
    [Tag(t)] + key
  }

  /** "last_block_hash" */
  const LAST_BLOCK_HASH_KEY: seq<Byte> :=
    ToBytes(SYSTEM, [108, 97, 115, 116, 95, 98, 108, 111, 99, 107, 95, 104, 97, 115, 104])

  function BlockKey(h: Hash): seq<Byte> { ToBytes(BLOCK, h) }

  function PrevKey(h: Hash): seq<Byte> { ToBytes(PREVIOUS_BLOCK_HASH, h) }

  /** The one-byte tags keep the three kinds of key apart. */
  lemma {:induction false} KeysApart(h: Hash, h': Hash)
    ensures BlockKey(h) != PrevKey(h') && BlockKey(h) != LAST_BLOCK_HASH_KEY && PrevKey(h) != LAST_BLOCK_HASH_KEY
    ensures BlockKey(h) == [2] + h && PrevKey(h) == [3] + h && LAST_BLOCK_HASH_KEY[0] == 1
    ensures BlockKey(h) == BlockKey(h') <==> h == h'
    ensures PrevKey(h) == PrevKey(h') <==> h == h'
  {
    assert BlockKey(h)[0] == 2 && PrevKey(h)[0] == PrevKey(h')[0] == 3 && LAST_BLOCK_HASH_KEY[0] == 1;
    assert BlockKey(h)[1..] == h && BlockKey(h')[1..] == h' && PrevKey(h)[1..] == h && PrevKey(h')[1..] == h';
  }

  /** The store after the first `k` of the three puts for `b`. */
  function Puts(store: Store, b: Block, k: nat): Store {
    var s1 := if k >= 1 then store[BlockKey(b.hash) := BlockRecord(b)] else store;
    var s2 := if k >= 2 then s1[PrevKey(b.hash) := HashRecord(b.prevHash)] else s1;
    if k >= 3 then s2[LAST_BLOCK_HASH_KEY := HashRecord(b.hash)] else s2
  }

  /** What `pushForwardToPersistentStorage` leaves behind. */
  function Pushed(store: Store, b: Block): Store {
    if BlockKey(b.hash) in store then store else Puts(store, b, 3)
  }

  /** The block record and the back-link of `b` are there. */
  ghost predicate Recorded(store: Store, b: Block) {
    && BlockKey(b.hash) in store && store[BlockKey(b.hash)] == BlockRecord(b)
    && PrevKey(b.hash) in store && store[PrevKey(b.hash)] == HashRecord(b.prevHash)
  }

  /** A walk back from the recorded last block reads exactly `chain`; other records may lie about. */
  ghost predicate Holds(store: Store, chain: seq<Block>) {
    && |chain| > 0
    && (forall i :: 1 <= i < |chain| ==> Recorded(store, chain[i]))
    && (LAST_BLOCK_HASH_KEY in store <==> |chain| > 1)
    && (|chain| > 1 ==> store[LAST_BLOCK_HASH_KEY] == HashRecord(Last(chain).hash))
  }

  /** No block outside `chain` has left a record: nothing was ever stopped between the puts. */
  ghost predicate Clean(store: Store, chain: seq<Block>) {
    forall h :: BlockKey(h) in store || PrevKey(h) in store ==> HasHash(chain, h)
  }

  /** What the puts for `b` change, and what they leave alone. */
  lemma {:induction false} PutsEffect(store: Store, b: Block, k: nat, h: Hash)
    requires k <= 3
    ensures BlockKey(h) in Puts(store, b, k) <==> BlockKey(h) in store || (k >= 1 && h == b.hash)
    ensures PrevKey(h) in Puts(store, b, k) <==> PrevKey(h) in store || (k >= 2 && h == b.hash)
    ensures k >= 2 ==> Recorded(Puts(store, b, k), b)
    ensures k <= 2 ==> (LAST_BLOCK_HASH_KEY in Puts(store, b, k) <==> LAST_BLOCK_HASH_KEY in store)
    ensures k <= 2 && LAST_BLOCK_HASH_KEY in store ==>
              Puts(store, b, k)[LAST_BLOCK_HASH_KEY] == store[LAST_BLOCK_HASH_KEY]
  {
    KeysApart(h, b.hash);
    KeysApart(b.hash, h);
    KeysApart(b.hash, b.hash);
  }

  lemma {:induction false} RecordedKept(store: Store, b: Block, k: nat, x: Block)
    requires Recorded(store, x) && x.hash != b.hash
    ensures Recorded(Puts(store, b, k), x)
  {
    KeysApart(x.hash, b.hash);
    KeysApart(b.hash, x.hash);
  }

  lemma {:induction false} AllRecordedKept(store: Store, chain: seq<Block>, b: Block, k: nat)
    requires (forall i :: 1 <= i < |chain| ==> Recorded(store, chain[i])) && !HasHash(chain, b.hash)
    ensures forall i :: 1 <= i < |chain| ==> Recorded(Puts(store, b, k), chain[i])
  {
    forall i | 1 <= i < |chain| ensures Recorded(Puts(store, b, k), chain[i]) {
      RecordedKept(store, b, k, chain[i]);
    }
  }

  /** After the push the store holds the longer chain exactly when it had no record of the block before. */
  lemma {:induction false} PushedHoldsIff(store: Store, chain: seq<Block>, b: Block)
    requires Holds(store, chain) && !HasHash(chain, b.hash)
    ensures Holds(Pushed(store, b), chain + [b]) <==> BlockKey(b.hash) !in store
    ensures !Holds(Pushed(store, b), chain + [b]) ==> Holds(Pushed(store, b), chain)
  {
    hide Recorded;
    var longer := chain + [b];
    assert Last(longer) == b;
    if BlockKey(b.hash) in store {
      LastIsNot(chain, b);
    } else {
      PutsEffect(store, b, 3, b.hash);
      AllRecordedKept(store, chain, b, 3);
      assert forall i :: 1 <= i < |chain| ==> longer[i] == chain[i];
    }
  }

  /** A store with records of the chain's blocks only has none of a new block, and keeps to that. */
  lemma {:induction false} CleanKept(store: Store, chain: seq<Block>, b: Block)
    requires Clean(store, chain) && !HasHash(chain, b.hash)
    ensures BlockKey(b.hash) !in store
    ensures Clean(Pushed(store, b), chain + [b])
  {
    hide Recorded;
    forall h | BlockKey(h) in Pushed(store, b) || PrevKey(h) in Pushed(store, b) ensures HasHash(chain + [b], h) {
      PutsEffect(store, b, 3, h);
      Blockchain.HasHashExtended(chain, b, h);
    }
  }

  lemma {:induction false} AddedKeeps(store: Store, chain: seq<Block>, b: Block, now: nat)
    requires |chain| > 0 && Verdict(chain, b, now) == ADDED
    ensures b.timestamp <= Horizon(now)
    ensures Holds(store, chain) ==> (Holds(Pushed(store, b), chain + [b]) <==> BlockKey(b.hash) !in store)
    ensures Clean(store, chain) ==> Clean(Pushed(store, b), chain + [b]) && BlockKey(b.hash) !in store
  {
    hide Horizon, Holds, Clean, Pushed, BlockKey;
    assert !HasHash(chain, b.hash);
    if Holds(store, chain) { PushedHoldsIff(store, chain, b); }
    if Clean(store, chain) { CleanKept(store, chain, b); }
  }

  // ---------- stopping between the puts ----------

  /** Stopped before the third put, the store still holds the chain without the new block. */
  lemma {:induction false} StopKeepsChain(store: Store, chain: seq<Block>, b: Block, k: nat)
    requires Holds(store, chain) && !HasHash(chain, b.hash) && k <= 2
    ensures Holds(Puts(store, b, k), chain)
  {
    PutsEffect(store, b, k, b.hash);
    AllRecordedKept(store, chain, b, k);
  }

  /**
   Stopped after `k` puts for `b`, restarted and given `b` again, the node answers ADDED. When only the first
   or the first two puts were made the retry is skipped, because the block record is there: the store still
   ends before `b`, and the next load loses it without raising.
   */
  lemma {:induction false} StopRetry(store: Store, chain: seq<Block>, b: Block, k: nat)
    requires Holds(store, chain) && BlockKey(b.hash) !in store && k <= 3 && !HasHash(chain, b.hash)
    ensures var retried := Pushed(Puts(store, b, k), b);
            && (Holds(retried, chain + [b]) <==> k == 0 || k == 3)
            && (Holds(retried, chain) <==> k == 1 || k == 2)
            && (k != 0 ==> retried == Puts(store, b, k))
  {
    hide Recorded;
    var stopped := Puts(store, b, k);
    PutsEffect(store, b, k, b.hash);
    assert Last(chain + [b]) == b;
    LastIsNot(chain, b);
    if k == 0 || k == 3 {
      PushedHoldsIff(store, chain, b);
    } else {
      StopKeepsChain(store, chain, b, k);
    }
  }

  lemma {:induction false} LastIsNot(chain: seq<Block>, b: Block)
    requires |chain| > 0 && !HasHash(chain, b.hash)
    ensures Last(chain).hash != b.hash
  {
    assert chain[|chain| - 1] == Last(chain);
  }

  /** The back-link of `h` can be read. */
  predicate HasPrev(store: Store, h: Hash) {
    PrevKey(h) in store && store[PrevKey(h)].HashRecord?
  }

  /** Hashes read by a walk back from the recorded last block that has not met the genesis hash yet. */
  ghost predicate Steps(store: Store, path: seq<Hash>, genesis: Hash) {
    && |path| > 0 && LAST_BLOCK_HASH_KEY in store && store[LAST_BLOCK_HASH_KEY] == HashRecord(path[0])
    && forall i :: 0 <= i < |path| - 1 ==>
         path[i] != genesis && PrevKey(path[i]) in store && store[PrevKey(path[i])] == HashRecord(path[i + 1])
  }

  /** The whole walk: it ends at the genesis hash, or at a hash whose back-link was never written. */
  ghost predicate Walk(store: Store, path: seq<Hash>, genesis: Hash) {
    && Steps(store, path, genesis)
    && (path[|path| - 1] == genesis || !HasPrev(store, path[|path| - 1]))
  }

  /** A walk that comes back to a hash it has been at. */
  ghost predicate Circles(store: Store, path: seq<Hash>, genesis: Hash) {
    Steps(store, path, genesis) && exists i :: 0 <= i < |path| - 1 && path[i] == path[|path| - 1]
  }

  lemma {:induction false} StepsAreOne(store: Store, walk: seq<Hash>, path: seq<Hash>, genesis: Hash, i: nat)
    requires Walk(store, walk, genesis) && Steps(store, path, genesis) && i < |path|
    ensures i < |walk| && walk[i] == path[i]
  {
    if i == 0 {
    } else {
      StepsAreOne(store, walk, path, genesis, i - 1);
      assert path[i - 1] != genesis && store[PrevKey(path[i - 1])] == HashRecord(path[i]);
      assert HasPrev(store, walk[i - 1]);
      assert i - 1 < |walk| - 1;
      assert store[PrevKey(walk[i - 1])] == HashRecord(walk[i]);
    }
  }

  lemma {:induction false} StepsRepeat(store: Store, path: seq<Hash>, genesis: Hash, i: nat, j: nat, d: nat)
    requires Steps(store, path, genesis) && i < j && j + d < |path| && path[i] == path[j]
    ensures path[i + d] == path[j + d]
  {
    if d == 0 {
    } else {
      StepsRepeat(store, path, genesis, i, j, d - 1);
      assert path[i + d - 1] == path[j + d - 1];
    }
  }

  /** A walk that ends never comes back. */
  lemma {:induction false} EndingNeverCircles(store: Store, walk: seq<Hash>, path: seq<Hash>, genesis: Hash)
    requires Walk(store, walk, genesis)
    ensures !Circles(store, path, genesis)
  {
    if Circles(store, path, genesis) {
      var j := |path| - 1;
      var i :| 0 <= i < j && path[i] == path[j];
      StepsAreOne(store, walk, path, genesis, i);
      StepsAreOne(store, walk, path, genesis, j);
      var d := |walk| - 1 - j;
      assert walk[i + d] != genesis && store[PrevKey(walk[i + d])] == HashRecord(walk[i + d + 1]);
      StepsRepeat(store, walk, genesis, i, j, d);
      assert false;
    }
  }

  ghost predicate Distinct(path: seq<Hash>) {
    forall i, j :: 0 <= i < j < |path| ==> path[i] != path[j]
  }

  /** Distinct hashes have distinct back-links, of which the store holds finitely many. */
  lemma {:induction false} PathFits(store: Store, path: seq<Hash>)
    requires Distinct(path) && forall i :: 0 <= i < |path| ==> PrevKey(path[i]) in store
    ensures |path| <= |store|
    decreases |path|
  {
    if path == [] {
    } else {
      var front, last := path[..|path| - 1], path[|path| - 1];
      var rest := store - {PrevKey(last)};
      assert rest.Keys == store.Keys - {PrevKey(last)};
      forall i | 0 <= i < |front| ensures PrevKey(front[i]) in rest {
        assert path[i] != last;
        KeysApart(front[i], last);
      }
      PathFits(rest, front);
    }
  }

  /** Continues a walk until it ends or comes back. */
  lemma {:induction false} WalkOn(store: Store, path: seq<Hash>, genesis: Hash) returns (whole: seq<Hash>)
    requires Steps(store, path, genesis) && Distinct(path)
    ensures Walk(store, whole, genesis) || Circles(store, whole, genesis)
    decreases |store| + 1 - |path|
  {
    var last := path[|path| - 1];
    if last == genesis || !HasPrev(store, last) {
      whole := path;
    } else {
      PathFits(store, path);
      var next := store[PrevKey(last)].hash;
      var longer := path + [next];
      if i :| 0 <= i < |path| && path[i] == next {
        whole := longer;
        assert longer[i] == longer[|longer| - 1];
      } else {
        whole := WalkOn(store, longer, genesis);
      }
    }
  }

  /** The loop of createAllBlockHashesList ends exactly when the walk never comes back to a hash. */
  lemma {:induction false} WalkEndsIff(store: Store, genesis: Hash)
    requires LAST_BLOCK_HASH_KEY in store && store[LAST_BLOCK_HASH_KEY].HashRecord?
    ensures (exists path :: Walk(store, path, genesis)) <==> !exists path :: Circles(store, path, genesis)
  {
    var whole := WalkOn(store, [store[LAST_BLOCK_HASH_KEY].hash], genesis);
    if walk :| Walk(store, walk, genesis) {
      forall path ensures !Circles(store, path, genesis) { EndingNeverCircles(store, walk, path, genesis); }
    }
  }

  ghost predicate Broken(store: Store, path: seq<Hash>, genesis: Hash) {
    Walk(store, path, genesis) && path[|path| - 1] != genesis
  }

  /**
   The same with `c` added on top after the retry. For k = 1 the back-link of `b` was never written and the
   next load finds it missing; for every other k the store now holds the whole chain, for k = 2 only thanks
   to `c`.
   */
  lemma {:induction false} StopRetryExtend(store: Store, chain: seq<Block>, b: Block, c: Block, k: nat)
    requires Holds(store, chain) && k <= 3
    requires BlockKey(b.hash) !in store && PrevKey(b.hash) !in store && BlockKey(c.hash) !in store
    requires !HasHash(chain, b.hash) && !HasHash(chain, c.hash) && b.hash != c.hash && c.prevHash == b.hash
    ensures var after := Pushed(Pushed(Puts(store, b, k), b), c);
            && (Holds(after, chain + [b] + [c]) <==> k != 1)
            && (Broken(after, [c.hash, b.hash], chain[0].hash) <==> k == 1)
  {
    hide Recorded;
    var stopped := Puts(store, b, k);
    var retried := Pushed(stopped, b);
    var after := Pushed(retried, c);
    PutsEffect(store, b, k, b.hash);
    PutsEffect(store, b, k, c.hash);
    PutsEffect(store, b, 3, c.hash);
    PutsEffect(retried, c, 3, c.hash);
    PutsEffect(retried, c, 3, b.hash);
    assert retried == (if k == 0 then Puts(store, b, 3) else stopped) && after == Puts(retried, c, 3);
    assert BackLink(after, c);
    if k == 1 {
      BrokenLink(store, chain, b, c, after);
    } else {
      PutsEffect(store, b, 3, b.hash);
      AllRecordedKept(store, chain, b, k);
      AllRecordedKept(store, chain, b, 3);
      AllRecordedKept(retried, chain, c, 3);
      RecordedKept(retried, c, 3, b);
      var longer := chain + [b] + [c];
      assert longer[|chain|] == b && longer[|chain| + 1] == c;
      assert forall i :: 1 <= i < |chain| ==> longer[i] == chain[i];
    }
  }

  ghost predicate BackLink(store: Store, b: Block) {
    && PrevKey(b.hash) in store && store[PrevKey(b.hash)] == HashRecord(b.prevHash)
    && LAST_BLOCK_HASH_KEY in store && store[LAST_BLOCK_HASH_KEY] == HashRecord(b.hash)
  }

  lemma {:induction false} BrokenLink(store: Store, chain: seq<Block>, b: Block, c: Block, after: Store)
    requires |chain| > 0 && !HasHash(chain, b.hash) && !HasHash(chain, c.hash) && c.prevHash == b.hash
    requires BackLink(after, c) && PrevKey(b.hash) !in after
    ensures Broken(after, [c.hash, b.hash], chain[0].hash)
    ensures !Holds(after, chain + [b] + [c])
  {
    assert HasHash(chain, chain[0].hash);
    assert (chain + [b] + [c])[|chain|] == b;
  }

  // ---------- loading ----------

  /** How many blocks of `chain` come back when the i-th replayed block meets the clock reading `clock(i)`. */
  ghost function Reloaded(chain: seq<Block>, clock: nat -> nat): (n: nat)
    requires |chain| > 0
    ensures 1 <= n <= |chain|
    ensures forall i :: 1 <= i < n ==> chain[i].timestamp <= Horizon(clock(i - 1))
    ensures n < |chain| ==> chain[n].timestamp > Horizon(clock(n - 1))
  {
    var n := |chain|;
    if n == 1 then 1 else
      var m := Reloaded(chain[..n - 1], clock);
      if m == n - 1 && chain[n - 1].timestamp <= Horizon(clock(n - 2)) then n else m
  }

  lemma {:induction false} ReloadedAll(chain: seq<Block>, clock: nat -> nat)
    requires |chain| > 0
    ensures Reloaded(chain, clock) == |chain| <==>
            forall i :: 1 <= i < |chain| ==> chain[i].timestamp <= Horizon(clock(i - 1))
  {}

  /** A later clock accepts whatever an earlier one did, as long as the 32-bit sum does not wrap. */
  lemma {:induction false} HorizonMonotone(earlier: nat, later: nat)
    requires earlier <= later && later + SECONDS_IN_DAY < 0x1_00000000
    ensures Horizon(earlier) <= Horizon(later)
  {}

  /** One day before the 32-bit clock ends the sum wraps, and every block with a timestamp is refused. */
  lemma {:induction false} HorizonWraps(b: Block)
    requires b.timestamp > 0
    ensures b.timestamp > Horizon(0x1_00000000 - SECONDS_IN_DAY)
  {}

  function HashesDown(chain: seq<Block>): (path: seq<Hash>)
    ensures |path| == |chain| && forall i :: 0 <= i < |path| ==> path[i] == chain[|chain| - 1 - i].hash
  {
    seq(|chain|, i requires 0 <= i < |chain| => chain[|chain| - 1 - i].hash)
  }

  /** The walk over a store that holds `chain`; without a last-block record there is none. */
  function PathOf(chain: seq<Block>): seq<Hash> {
    if |chain| > 1 then HashesDown(chain) else []
  }

  lemma {:induction false} HoldsWalk(store: Store, chain: seq<Block>)
    requires Holds(store, chain) && WellFormed(chain)
    ensures if LAST_BLOCK_HASH_KEY in store then Walk(store, PathOf(chain), chain[0].hash) else PathOf(chain) == []
    ensures !Broken(store, PathOf(chain), chain[0].hash)
  {
    hide WellFormed;
    if |chain| > 1 {
      var path := HashesDown(chain);
      assert path[|path| - 1] == chain[0].hash;
      forall i | 0 <= i < |path| - 1
        ensures path[i] != chain[0].hash && PrevKey(path[i]) in store
                && store[PrevKey(path[i])] == HashRecord(path[i + 1])
      {
        Shape(chain, 0, |chain| - 1 - i);
        assert Recorded(store, chain[|chain| - 1 - i]);
      }
    }
  }

  /** A block out of order is never added: its depth does not fit. */
  lemma {:induction false} OutOfOrder(chain: seq<Block>, n: nat, i: nat, now: nat)
    requires WellFormed(chain) && 1 <= n <= |chain| && 1 <= i < |chain|
    ensures Verdict(chain[..n], chain[i], now) == ADDED <==> i == n && chain[i].timestamp <= Horizon(now)
  {
    Shape(chain, 0, i);
    assert Admissible(chain[..i], chain[i]);
    AddedIffAdmissible(chain[..n], chain[i], now);
  }

  // ---------- the loop of load ----------

  datatype Loaded = Loaded(chain: seq<Block>, store: Store, raised: bool)

  /** One turn of the loop: the block recorded under `hash` is offered to the chain. */
  ghost function Turn(chain: seq<Block>, store: Store, hash: Hash, now: nat): (r: Loaded)
    requires |chain| > 0
    ensures |r.chain| > 0
  {
    if BlockKey(hash) !in store || !store[BlockKey(hash)].BlockRecord? then Loaded(chain, store, true)
    else
      var block := store[BlockKey(hash)].block;
      if Verdict(chain, block, now) == ADDED then Loaded(chain + [block], Pushed(store, block), false)
      else Loaded(chain, store, false)
  }

  /** The blocks recorded under `hashes`, added one by one until a record is missing; on that the program raises. */
  ghost function LoadedFrom(chain: seq<Block>, store: Store, hashes: seq<Hash>, clock: nat -> nat, k: nat): Loaded
    requires |chain| > 0
    decreases |hashes|
  {
    if hashes == [] then Loaded(chain, store, false) else
      var turn := Turn(chain, store, hashes[0], clock(k));
      if turn.raised then turn else LoadedFrom(turn.chain, turn.store, hashes[1..], clock, k + 1)
  }

  lemma {:induction false} LoadedTurn(chain: seq<Block>, store: Store, hashes: seq<Hash>, clock: nat -> nat, k: nat)
    requires |chain| > 0 && hashes != []
    ensures var turn := Turn(chain, store, hashes[0], clock(k));
            LoadedFrom(chain, store, hashes, clock, k) ==
            if turn.raised then turn else LoadedFrom(turn.chain, turn.store, hashes[1..], clock, k + 1)
  {}

  lemma {:induction false} LoadedStep(chain: seq<Block>, store: Store, hashes: seq<Hash>, clock: nat -> nat, k: nat)
    requires |chain| > 0 && hashes != []
    ensures var key := BlockKey(hashes[0]);
            LoadedFrom(chain, store, hashes, clock, k) ==
            if key !in store || !store[key].BlockRecord? then Loaded(chain, store, true)
            else if Verdict(chain, store[key].block, clock(k)) == ADDED
            then LoadedFrom(chain + [store[key].block], Pushed(store, store[key].block), hashes[1..], clock, k + 1)
            else LoadedFrom(chain, store, hashes[1..], clock, k + 1)
  {
    hide Verdict, Pushed;
  }

  lemma {:induction false} LoadedNothing(chain: seq<Block>, store: Store, hashes: seq<Hash>, clock: nat -> nat, k: nat)
    requires |chain| > 0 && hashes == []
    ensures LoadedFrom(chain, store, hashes, clock, k) == Loaded(chain, store, false)
  {}

  /** Loading only adds to the chain. */
  lemma {:induction false} LoadedKeepsFirst(chain: seq<Block>, store: Store, hashes: seq<Hash>, clock: nat -> nat,
                                            k: nat)
    requires |chain| > 0
    ensures var loaded := LoadedFrom(chain, store, hashes, clock, k).chain; |loaded| > 0 && loaded[0] == chain[0]
    decreases |hashes|
  {
    hide Verdict, Pushed;
    if hashes == [] {
    } else {
      var turn := Turn(chain, store, hashes[0], clock(k));
      LoadedKeepsFirst(turn.chain, turn.store, hashes[1..], clock, k + 1);
    }
  }

  /** The hashes of a walk without the genesis hash it ends at, oldest first. */
  function Oldest(path: seq<Hash>): seq<Hash> {
    if path == [] then [] else Reversed(path[..|path| - 1])
  }

  lemma {:induction false} OldestIs(path: seq<Hash>, hashes: seq<Hash>)
    requires |hashes| == if path == [] then 0 else |path| - 1
    requires forall i :: 0 <= i < |hashes| ==> hashes[i] == path[|hashes| - 1 - i]
    ensures hashes == Oldest(path)
  {}

  /** A store that holds a chain gives back its longest prefix in time, and loading does not change it. */
  lemma {:induction false} LoadedHolds(store: Store, stored: seq<Block>, clock: nat -> nat)
    requires Holds(store, stored) && WellFormed(stored)
    ensures LoadedFrom(stored[..1], store, Oldest(PathOf(stored)), clock, 0) ==
            Loaded(stored[..Reloaded(stored, clock)], store, false)
  {
    hide WellFormed, LoadedFrom, Reloaded, StopsAt;
    var hashes := Oldest(PathOf(stored));
    OldestHashes(stored);
    StopsAtStart(stored, clock);
    assert hashes[0..] == hashes;
    LoadedRest(store, stored, hashes, clock, 1, 1);
  }

  /** The walk over a store that holds `stored`, and the load along it. */
  lemma {:induction false} HeldLoads(store: Store, stored: seq<Block>, clock: nat -> nat, genesis: Block)
    requires Holds(store, stored) && WellFormed(stored) && stored[0] == genesis
    ensures if LAST_BLOCK_HASH_KEY in store then Walk(store, PathOf(stored), genesis.hash) else PathOf(stored) == []
    ensures !Broken(store, PathOf(stored), genesis.hash)
    ensures LoadedFrom([genesis], store, Oldest(PathOf(stored)), clock, 0) ==
            Loaded(stored[..Reloaded(stored, clock)], store, false)
  {
    assert |stored| > 0;
    hide Holds, WellFormed, PathOf, Walk, Broken, LoadedFrom, Reloaded, Oldest;
    assert stored[..1] == [genesis];
    HoldsWalk(store, stored);
    LoadedHolds(store, stored, clock);
  }

  lemma {:induction false} OldestHashes(stored: seq<Block>)
    requires |stored| > 0
    ensures var hashes := Oldest(PathOf(stored));
            |hashes| == |stored| - 1 && forall k :: 0 <= k < |hashes| ==> hashes[k] == stored[k + 1].hash
  {}

  lemma {:induction false} LoadedRest(store: Store, stored: seq<Block>, hashes: seq<Hash>, clock: nat -> nat, n: nat,
                                      i: nat)
    requires Holds(store, stored) && WellFormed(stored) && 1 <= n <= i <= |stored| && StopsAt(stored, clock, n, i)
    requires |hashes| == |stored| - 1 && forall k :: 0 <= k < |hashes| ==> hashes[k] == stored[k + 1].hash
    ensures LoadedFrom(stored[..n], store, hashes[i - 1..], clock, i - 1) ==
            Loaded(stored[..Reloaded(stored, clock)], store, false)
    decreases |stored| - i
  {
    hide WellFormed, Verdict, Horizon, Reloaded, StopsAt, LoadedFrom;
    if i == |stored| {
      StopsAtReloaded(stored, clock, n);
      LoadedNothing(stored[..n], store, hashes[i - 1..], clock, i - 1);
    } else {
      LoadedStep(stored[..n], store, hashes[i - 1..], clock, i - 1);
      assert Recorded(store, stored[i]);
      OutOfOrder(stored, n, i, clock(i - 1));
      StopsAtStep(stored, clock, n, i);
      assert hashes[i - 1..][0] == stored[i].hash && hashes[i - 1..][1..] == hashes[i..];
      var m := if n == i && stored[i].timestamp <= Horizon(clock(i - 1)) then n + 1 else n;
      LoadedRest(store, stored, hashes, clock, m, i + 1);
    }
  }

  class PersistentBlockchain {
    const base: Blockchain.Blockchain
    var database: Store

    /** The clock readings at which the blocks after genesis were added. */
    ghost var addedAt: seq<nat>

    ghost function Repr(): set<object> {
      {this} + base.Repr()
    }

    ghost predicate Valid()
      reads this, base, base.consensus
      ensures Valid() ==> |base.chain| > 0
    {
      && base.Valid()
      && |addedAt| == |base.chain| - 1
      && forall i :: 1 <= i < |base.chain| ==> base.chain[i].timestamp <= Horizon(addedAt[i - 1])
    }

    /** Memory and store agree. */
    ghost predicate Synced()
      reads this, base
    {
      Holds(database, base.chain)
    }

    /** `stored` is what an earlier run left under `database.path`; `clean` wipes it. */
    constructor (genesisBlock: Block, stored: Store, clean: bool)
      ensures Valid() && base.chain == [genesisBlock] && addedAt == []
      ensures database == if clean then map[] else stored
      ensures fresh(base) && fresh(base.consensus) && base.genesisBlockHash == genesisBlock.hash
      ensures clean ==> Synced() && Clean(database, base.chain)
    {
      base := new Blockchain.Blockchain(genesisBlock);
      database := if clean then map[] else stored;
      addedAt := [];
    }

    method TryAddBlock(block: Block, now: nat) returns (r: AdditionResult)
      requires Valid()
      modifies this, base, base.consensus
      ensures Valid()
      ensures r == Verdict(old(base.chain), block, now)
      ensures r == ADDED ==> base.chain == old(base.chain) + [block] && database == Pushed(old(database), block)
      ensures r != ADDED ==> unchanged(this) && unchanged(base) && unchanged(base.consensus)
      ensures old(Synced()) ==> (Synced() <==> r != ADDED || BlockKey(block.hash) !in old(database))
      ensures old(Clean(database, base.chain)) ==> Clean(database, base.chain)
      ensures r == ADDED && old(Clean(database, base.chain)) ==> BlockKey(block.hash) !in old(database)
      ensures base.genesisBlockHash == old(base.genesisBlockHash)
    {
      hide WellFormed, Blockchain.Views, Verdict, Holds, Clean, Pushed, BlockKey;
      r := base.TryAddBlock(block, now);
      if r == ADDED {
        AddedKeeps(database, old(base.chain), block, now);
        PushForwardToPersistentStorage(block);
        addedAt := addedAt + [now];
      }
    }

    method PushForwardToPersistentStorage(block: Block)
      modifies this`database
      ensures database == Pushed(old(database), block)
    {
      if ToBytes(BLOCK, block.hash) in database {
        return;
      }
      database := database[ToBytes(BLOCK, block.hash) := BlockRecord(block)];
      database := database[ToBytes(PREVIOUS_BLOCK_HASH, block.hash) := HashRecord(block.prevHash)];
      database := database[LAST_BLOCK_HASH_KEY := HashRecord(block.hash)];
    }

    method GetLastBlockHashAtPersistentStorage() returns (r: Option<Hash>)
      ensures r.Some? <==> LAST_BLOCK_HASH_KEY in database && database[LAST_BLOCK_HASH_KEY].HashRecord?
      ensures r.Some? ==> database[LAST_BLOCK_HASH_KEY] == HashRecord(r.value)
    {
      if LAST_BLOCK_HASH_KEY in database {
        var record := database[LAST_BLOCK_HASH_KEY];
        if record.HashRecord? {
          return Some(record.hash);
        }
      }
      return None;
    }

    /**
     The walk back through the previous-hash records. `path` says how it goes: that it ends, and
     whether at the genesis block or at a missing record, on which the program raises.
     */
    method CreateAllBlockHashesList(ghost path: seq<Hash>) returns (r: Result<seq<Hash>>)
      requires base.Valid()
      requires if LAST_BLOCK_HASH_KEY in database then Walk(database, path, base.genesisBlockHash) else path == []
      ensures r.Raised? <==> Broken(database, path, base.genesisBlockHash)
      ensures r.Ok? ==> |r.value| == if path == [] then 0 else |path| - 1
      ensures r.Ok? ==> forall i :: 0 <= i < |r.value| ==> r.value[i] == path[|r.value| - 1 - i]
    {
      hide Blockchain.Views, WellFormed;
      var hashes: seq<Hash> := [];
      var last := GetLastBlockHashAtPersistentStorage();
      if last.Some? {
        var current := last.value;
        var genesisHash := base.genesisBlockHash;
        while current != genesisHash
          invariant |hashes| < |path| && current == path[|hashes|]
          invariant forall i :: 0 <= i < |hashes| ==> hashes[i] == path[i]
          decreases |path| - |hashes|
        {
          ghost var i := |hashes|;
          assert i < |path| - 1 ==>
              PrevKey(path[i]) in database && database[PrevKey(path[i])] == HashRecord(path[i + 1]);
          if ToBytes(PREVIOUS_BLOCK_HASH, current) !in database || !database[PrevKey(current)].HashRecord? {
            return Raised(BadOptionalAccess);
          }
          hashes := hashes + [current];
          current := database[ToBytes(PREVIOUS_BLOCK_HASH, current)].hash;
        }
        hashes := Reversed(hashes);
      }
      return Ok(hashes);
    }

    /**
     The walk, and the blocks found on it added oldest first. `path` is the walk; it raises at a missing
     back-link, the loop at a missing block.
     */
    method Load(clock: nat -> nat, ghost path: seq<Hash>) returns (r: Result<()>)
      requires Valid()
      requires if LAST_BLOCK_HASH_KEY in database then Walk(database, path, base.genesisBlockHash) else path == []
      modifies this, base, base.consensus
      ensures Valid()
      ensures Broken(old(database), path, old(base.genesisBlockHash)) ==>
                r.Raised? && base.chain == old(base.chain) && database == old(database)
      ensures !Broken(old(database), path, old(base.genesisBlockHash)) ==>
                LoadedFrom(old(base.chain), old(database), Oldest(path), clock, 0) ==
                Loaded(base.chain, database, r.Raised?)
    {
      hide WellFormed, LoadedFrom, Blockchain.Views, Walk, Broken, Oldest;
      var loaded := CreateAllBlockHashesList(path);
      if loaded.Raised? {
        return Raised(loaded.error);
      }
      OldestIs(path, loaded.value);
      r := LoadAll(loaded.value, clock);
    }

    /** The loop of `load`. */
    method LoadAll(hashes: seq<Hash>, clock: nat -> nat) returns (r: Result<()>)
      requires Valid()
      modifies this, base, base.consensus
      ensures Valid()
      ensures LoadedFrom(old(base.chain), old(database), hashes, clock, 0) == Loaded(base.chain, database, r.Raised?)
    {
      hide Valid, Turn, LoadedFrom;
      ghost var whole := LoadedFrom(base.chain, database, hashes, clock, 0);
      assert hashes[0..] == hashes;
      for k := 0 to |hashes|
        invariant Valid()
        invariant LoadedFrom(base.chain, database, hashes[k..], clock, k) == whole
      {
        assert hashes[k..][0] == hashes[k] && hashes[k..][1..] == hashes[k + 1..];
        LoadedTurn(base.chain, database, hashes[k..], clock, k);
        r := LoadOne(hashes[k], clock(k));
        if r.Raised? {
          return;
        }
      }
      LoadedNothing(base.chain, database, hashes[|hashes|..], clock, |hashes|);
      return Ok(());
    }

    /** One turn of the loop. */
    method LoadOne(hash: Hash, now: nat) returns (r: Result<()>)
      requires Valid()
      modifies this, base, base.consensus
      ensures Valid()
      ensures Turn(old(base.chain), old(database), hash, now) == Loaded(base.chain, database, r.Raised?)
      ensures r.Raised? <==> BlockKey(hash) !in old(database) || !old(database)[BlockKey(hash)].BlockRecord?
      ensures r.Raised? ==> base.chain == old(base.chain) && database == old(database)
      ensures r.Ok? ==>
                var block := old(database)[BlockKey(hash)].block;
                if Verdict(old(base.chain), block, now) == ADDED
                then base.chain == old(base.chain) + [block] && database == Pushed(old(database), block)
                else base.chain == old(base.chain) && database == old(database)
    {
      hide WellFormed, Verdict, Pushed, Holds, Clean, Synced;
      var found := FindBlockAtPersistentStorage(hash);
      if found.None? {
        return Raised(BadOptionalAccess);
      }
      var result := TryAddBlock(found.value, now);
      return Ok(());
    }

    method FindBlockAtPersistentStorage(hash: Hash) returns (r: Option<Block>)
      ensures r.Some? <==> BlockKey(hash) in database && database[BlockKey(hash)].BlockRecord?
      ensures r.Some? ==> database[BlockKey(hash)] == BlockRecord(r.value)
    {
      if ToBytes(BLOCK, hash) !in database {
        return None;
      }
      var record := database[ToBytes(BLOCK, hash)];
      return if record.BlockRecord? then Some(record.block) else None;
    }
  }

  /** The first `n` of the first `m` blocks are loaded, and block `n`, if among them, met a clock too early. */
  ghost predicate StopsAt(chain: seq<Block>, clock: nat -> nat, n: nat, m: nat) {
    && n <= m <= |chain|
    && (forall i :: 1 <= i < n ==> chain[i].timestamp <= Horizon(clock(i - 1)))
    && (1 <= n < m ==> chain[n].timestamp > Horizon(clock(n - 1)))
  }

  lemma {:induction false} StopsAtStart(chain: seq<Block>, clock: nat -> nat)
    requires |chain| > 0
    ensures StopsAt(chain, clock, 1, 1)
  {}

  lemma {:induction false} StopsAtStep(chain: seq<Block>, clock: nat -> nat, n: nat, i: nat)
    requires 1 <= n <= i < |chain| && StopsAt(chain, clock, n, i)
    ensures chain[..n + 1] == chain[..n] + [chain[n]]
    ensures StopsAt(chain, clock, if n == i && chain[i].timestamp <= Horizon(clock(i - 1)) then n + 1 else n, i + 1)
  {}

  lemma {:induction false} StopsAtReloaded(chain: seq<Block>, clock: nat -> nat, n: nat)
    requires |chain| > 0 && 1 <= n && StopsAt(chain, clock, n, |chain|)
    ensures n == Reloaded(chain, clock)
  {}

  /** Blocks accepted once are accepted by every later clock a day away from wrapping. */
  lemma {:induction false} LaterClock(chain: seq<Block>, addedAt: seq<nat>, clock: nat -> nat)
    requires |addedAt| == |chain| - 1
    requires forall i :: 1 <= i < |chain| ==> chain[i].timestamp <= Horizon(addedAt[i - 1])
    requires forall i :: 0 <= i < |addedAt| ==> addedAt[i] <= clock(i) && clock(i) + SECONDS_IN_DAY < 0x1_00000000
    ensures Reloaded(chain, clock) == |chain|
  {
    forall i | 1 <= i < |chain| ensures chain[i].timestamp <= Horizon(clock(i - 1)) {
      HorizonMonotone(addedAt[i - 1], clock(i - 1));
    }
  }

  /**
   The process restarts over the store another one left. It comes back with the longest prefix of its
   chain that the clock accepts again: all of it for any later clock that is a day from wrapping.
   */
  method Restart(node: PersistentBlockchain, genesisBlock: Block,
                 clock: nat -> nat) returns (again: PersistentBlockchain)
    requires node.Valid() && node.Synced() && node.base.chain[0] == genesisBlock
    ensures again.Valid() && again.database == node.database
    ensures fresh(again) && fresh(again.base) && fresh(again.base.consensus)
    ensures again.base.chain == node.base.chain[..Reloaded(node.base.chain, clock)]
    ensures (forall i :: 0 <= i < |node.addedAt| ==>
               node.addedAt[i] <= clock(i) && clock(i) + SECONDS_IN_DAY < 0x1_00000000)
            ==> again.base.chain == node.base.chain && again.Synced()
  {
    hide Blockchain.Views, WellFormed, Reloaded, Horizon, Holds, Clean;
    ghost var chain, addedAt := node.base.chain, node.addedAt;
    again := Reopen(genesisBlock, node.database, clock, chain);
    if forall i :: 0 <= i < |addedAt| ==> addedAt[i] <= clock(i) && clock(i) + SECONDS_IN_DAY < 0x1_00000000 {
      LaterClock(chain, addedAt, clock);
      assert chain[..|chain|] == chain;
    }
  }

  /** A new node over a store that holds `chain`, and its load. */
  method Reopen(genesisBlock: Block, store: Store, clock: nat -> nat, ghost chain: seq<Block>)
    returns (again: PersistentBlockchain)
    requires Holds(store, chain) && WellFormed(chain) && chain[0] == genesisBlock
    ensures again.Valid() && again.database == store
    ensures fresh(again) && fresh(again.base) && fresh(again.base.consensus)
    ensures again.base.chain == chain[..Reloaded(chain, clock)]
  {
    assert |chain| > 0;
    hide Blockchain.Views, WellFormed, Reloaded, Holds, Broken, PathOf, Walk, LoadedFrom;
    again := new PersistentBlockchain(genesisBlock, store, false);
    HeldLoads(store, chain, clock, genesisBlock);
    var r := again.Load(clock, PathOf(chain));
  }
}
