/**
 The table of handshaked peers, `KademliaPeerPool` (src/core/host.cpp). Its lock makes every operation one
 step; the clock reading is a parameter.
 */
module Kademlia {
  import opened Types
  import opened Blocks
  import opened XorMetric

  const MAX_BUCKET_SIZE: nat := 10

  /** base::config::NET_PING_FREQUENCY + base::config::NET_CONNECT_TIMEOUT, in seconds. */
  const PATIENCE: nat := 3600 + 10

  datatype Endpoint = Endpoint(ip: seq<Byte>, port: nat)

  class Peer {
    const address: Address
    const endpoint: Endpoint
    const publicEndpoint: Endpoint
    var lastSeen: Uint32
    var isSessionClosed: bool

    constructor (address: Address, endpoint: Endpoint, publicEndpoint: Endpoint, lastSeen: Uint32)
      ensures this.address == address && this.endpoint == endpoint && this.publicEndpoint == publicEndpoint
      ensures this.lastSeen == lastSeen && !isSessionClosed
    {
      this.address := address;
      this.endpoint := endpoint;
      this.publicEndpoint := publicEndpoint;
      this.lastSeen := lastSeen;
      this.isSessionClosed := false;
    }
  }

  type Table = seq<seq<Peer>>

  predicate Clash(p: Peer, q: Peer) {
    p.publicEndpoint == q.publicEndpoint || p.endpoint == q.endpoint
  }

  ghost predicate ClashesWithAny(table: Table, peer: Peer) {
    exists i, j :: 0 <= i < |table| && 0 <= j < |table[i]| && Clash(table[i][j], peer)
  }

  // ---------- the invariant ----------

  ghost predicate NoDuplicates(bucket: seq<Peer>) {
    forall j, k :: 0 <= j < k < |bucket| ==> bucket[j] != bucket[k]
  }

  ghost predicate BucketOk(host: Address, index: nat, bucket: seq<Peer>) {
    && |bucket| <= MAX_BUCKET_SIZE
    && (forall j :: 0 <= j < |bucket| ==> Difference(host, bucket[j].address) == index)
    && NoDuplicates(bucket)
  }

  /** Two peers of the table that share an endpoint are one. */
  ghost predicate EndpointsUnique(table: Table) {
    forall i, j, k, l :: 0 <= i < |table| && 0 <= j < |table[i]| && 0 <= k < |table| && 0 <= l < |table[k]| ==>
      Clash(table[i][j], table[k][l]) ==> table[i][j] == table[k][l]
  }

  ghost predicate TableOk(host: Address, table: Table) {
    && |table| == ADDRESS_BITS
    && (forall i :: 0 <= i < ADDRESS_BITS ==> BucketOk(host, i, table[i]))
    && EndpointsUnique(table)
  }

  /** The host itself is never stored, and no peer is stored twice. */
  lemma {:induction false} StoredOnce(host: Address, table: Table, i: nat, j: nat, k: nat, l: nat)
    requires TableOk(host, table)
    requires i < ADDRESS_BITS && j < |table[i]| && k < ADDRESS_BITS && l < |table[k]|
    ensures table[i][j].address != host
    ensures table[i][j].endpoint == table[k][l].endpoint || table[i][j].publicEndpoint == table[k][l].publicEndpoint ==>
              i == k && j == l
  {
    assert BucketOk(host, i, table[i]) && BucketOk(host, k, table[k]);
    DifferenceIsLogarithm(host, table[i][j].address);
  }

  function Without<T>(s: seq<T>, i: nat): (r: seq<T>)
    requires i < |s|
    ensures |r| == |s| - 1 && forall k :: 0 <= k < |r| ==> r[k] == s[if k < i then k else k + 1]
  {
    s[..i] + s[i + 1..]
  }

  /** The bucket is made of members of another, in their order. */
  ghost predicate Within(small: seq<Peer>, large: seq<Peer>) {
    && |small| <= |large|
    && (forall j :: 0 <= j < |small| ==> small[j] in large)
    && (NoDuplicates(large) ==> NoDuplicates(small))
  }

  lemma {:induction false} ShrinkKeeps(host: Address, table: Table, d: nat, bucket: seq<Peer>)
    requires TableOk(host, table) && d < ADDRESS_BITS && Within(bucket, table[d])
    ensures TableOk(host, table[d := bucket])
  {
    hide Difference, Clash;
    var after := table[d := bucket];
    assert BucketOk(host, d, table[d]);
    assert BucketOk(host, d, bucket);
    forall i | 0 <= i < ADDRESS_BITS ensures BucketOk(host, i, after[i]) {
      if i != d { assert BucketOk(host, i, table[i]); }
    }
    forall i, j, k, l | 0 <= i < |after| && 0 <= j < |after[i]| && 0 <= k < |after| && 0 <= l < |after[k]|
      && Clash(after[i][j], after[k][l])
      ensures after[i][j] == after[k][l]
    {
      var j' :| 0 <= j' < |table[i]| && table[i][j'] == after[i][j];
      var l' :| 0 <= l' < |table[k]| && table[k][l'] == after[k][l];
      assert Clash(table[i][j'], table[k][l']);
    }
  }

  lemma {:induction false} WithoutWithin(bucket: seq<Peer>, i: nat)
    requires i < |bucket|
    ensures Within(Without(bucket, i), bucket)
  {}

  lemma {:induction false} PushKeeps(host: Address, table: Table, peer: Peer)
    requires TableOk(host, table) && !ClashesWithAny(table, peer)
    requires Difference(host, peer.address) < ADDRESS_BITS && |table[Difference(host, peer.address)]| < MAX_BUCKET_SIZE
    ensures var d := Difference(host, peer.address); TableOk(host, table[d := table[d] + [peer]])
  {
    hide Difference;
    var d := Difference(host, peer.address);
    var bucket := table[d] + [peer];
    var after := table[d := bucket];
    assert BucketOk(host, d, table[d]);
    forall j | 0 <= j < |table[d]| ensures bucket[j] != peer { assert !Clash(table[d][j], peer); }
    assert BucketOk(host, d, bucket);
    forall i | 0 <= i < ADDRESS_BITS ensures BucketOk(host, i, after[i]) {
      if i != d { assert BucketOk(host, i, table[i]); }
    }
    PushUnique(table, d, peer);
  }

  lemma {:induction false} PushUnique(table: Table, d: nat, peer: Peer)
    requires EndpointsUnique(table) && !ClashesWithAny(table, peer) && d < |table|
    ensures EndpointsUnique(table[d := table[d] + [peer]])
  {
    var after := table[d := table[d] + [peer]];
    forall k, l | 0 <= k < |table| && 0 <= l < |table[k]|
      ensures !Clash(table[k][l], peer) && !Clash(peer, table[k][l])
    {}
    forall i, j, k, l | 0 <= i < |after| && 0 <= j < |after[i]| && 0 <= k < |after| && 0 <= l < |after[k]|
      && Clash(after[i][j], after[k][l])
      ensures after[i][j] == after[k][l]
    {
      if !(i == d && j == |table[d]|) && !(k == d && l == |table[d]|) {
        assert Clash(table[i][j], table[k][l]);
      }
    }
  }

  // ---------- the clock ----------

  /** The unsigned 32-bit subtraction of two clock readings. */
  function QuietFor(now: nat, lastSeen: Uint32): Uint32 {
    (now % 0x1_00000000 - lastSeen) % 0x1_00000000
  }

  /**
   A peer counts as silent when it was last seen more than 3610 seconds ago, and also when it was last seen
   after the reading of the clock, unless by so much that the difference wraps to 3610 or less.
   */
  lemma {:induction false} SilentIff(now: nat, lastSeen: Uint32)
    ensures QuietFor(now, lastSeen) > PATIENCE <==>
            var t := now % 0x1_00000000;
            if lastSeen <= t then t - lastSeen > PATIENCE else lastSeen - t < 0x1_00000000 - PATIENCE
  {
    var t := now % 0x1_00000000;
    if lastSeen <= t {
      assert QuietFor(now, lastSeen) == t - lastSeen;
    } else {
      assert QuietFor(now, lastSeen) == t - lastSeen + 0x1_00000000;
    }
  }

  // ---------- the pool ----------

  /** The first of the peers that were seen longest ago. */
  ghost predicate LeastRecent(bucket: seq<Peer>, i: nat)
    reads bucket
  {
    && i < |bucket|
    && (forall k :: 0 <= k < |bucket| ==> bucket[i].lastSeen <= bucket[k].lastSeen)
    && (forall k :: 0 <= k < i ==> bucket[i].lastSeen < bucket[k].lastSeen)
  }

  function StillOpen(bucket: seq<Peer>): seq<Peer>
    reads bucket
  {
    if bucket == [] then [] else
      var last := bucket[|bucket| - 1];
      StillOpen(bucket[..|bucket| - 1]) + if last.isSessionClosed then [] else [last]
  }

  lemma {:induction false} StillOpenWithin(bucket: seq<Peer>)
    ensures Within(StillOpen(bucket), bucket)
    ensures forall p :: p in StillOpen(bucket) <==> p in bucket && !p.isSessionClosed
  {
    if bucket == [] {
    } else {
      var front, last := bucket[..|bucket| - 1], bucket[|bucket| - 1];
      StillOpenWithin(front);
      assert bucket == front + [last];
      hide StillOpen;
      var kept := StillOpen(front);
      assert StillOpen(bucket) == kept + (if last.isSessionClosed then [] else [last]) by { StillOpenStep(bucket); }
      assert forall j :: 0 <= j < |kept| ==> kept[j] in bucket;
      if NoDuplicates(bucket) { LastIsNew(bucket, kept); }
    }
  }

  /** Those that stay keep their order: a bucket is gone through front to back. */
  lemma {:induction false} StillOpenInOrder(front: seq<Peer>, back: seq<Peer>)
    ensures StillOpen(front + back) == StillOpen(front) + StillOpen(back)
    decreases |back|
  {
    if back == [] {
      assert front + back == front;
    } else {
      StillOpenStep(front + back);
      StillOpenStep(back);
      hide StillOpen;
      var n, all := |back| - 1, front + back;
      assert all[..|all| - 1] == front + back[..n] && all[|all| - 1] == back[n];
      StillOpenInOrder(front, back[..n]);
    }
  }

  lemma {:induction false} StillOpenOne(peer: Peer)
    ensures StillOpen([peer]) == if peer.isSessionClosed then [] else [peer]
  {
    assert [peer][..0] == [];
  }

  lemma {:induction false} StillOpenStep(bucket: seq<Peer>)
    requires bucket != []
    ensures var last := bucket[|bucket| - 1];
            StillOpen(bucket) == StillOpen(bucket[..|bucket| - 1]) + if last.isSessionClosed then [] else [last]
  {}

  lemma {:induction false} LastIsNew(bucket: seq<Peer>, kept: seq<Peer>)
    requires bucket != [] && NoDuplicates(bucket) && Within(kept, bucket[..|bucket| - 1])
    ensures NoDuplicates(kept) && NoDuplicates(kept + [bucket[|bucket| - 1]])
  {
    assert NoDuplicates(bucket[..|bucket| - 1]);
    forall j | 0 <= j < |kept| ensures kept[j] != bucket[|bucket| - 1] {
      var i :| 0 <= i < |bucket| - 1 && bucket[..|bucket| - 1][i] == kept[j];
      assert bucket[i] != bucket[|bucket| - 1];
    }
  }

  class KademliaPeerPool {
    const hostAddress: Address
    const buckets: array<seq<Peer>>

    ghost predicate Valid()
      reads buckets
    {
      TableOk(hostAddress, buckets[..])
    }

    constructor (hostAddress: Address)
      ensures Valid() && this.hostAddress == hostAddress && fresh(buckets)
      ensures forall i :: 0 <= i < ADDRESS_BITS ==> buckets[i] == []
    {
      this.hostAddress := hostAddress;
      buckets := new seq<Peer>[ADDRESS_BITS](_ => []);
    }

    method GetLeastRecentlySeenPeerIndex(bucketId: nat) returns (lrs: nat)
      requires bucketId < buckets.Length && buckets[bucketId] != []
      ensures LeastRecent(buckets[bucketId], lrs)
      ensures var bucket := buckets[bucketId];
              && lrs < |bucket|
              && (forall k :: 0 <= k < |bucket| ==> bucket[lrs].lastSeen <= bucket[k].lastSeen)
              && (forall k :: 0 <= k < lrs ==> bucket[lrs].lastSeen < bucket[k].lastSeen)
    {
      lrs := 0;
      var bucket := buckets[bucketId];
      for i := 1 to |bucket|
        invariant lrs < i
        invariant forall k :: 0 <= k < i ==> bucket[lrs].lastSeen <= bucket[k].lastSeen
        invariant forall k :: 0 <= k < lrs ==> bucket[lrs].lastSeen < bucket[k].lastSeen
      {
        if bucket[lrs].lastSeen > bucket[i].lastSeen {
          lrs := i;
        }
      }
    }

    /** The scan at the head of tryAddPeer. */
    method FindClash(peer: Peer) returns (found: bool)
      ensures found <==> ClashesWithAny(buckets[..], peer)
    {
      for i := 0 to buckets.Length
        invariant forall k, l :: 0 <= k < i && 0 <= l < |buckets[k]| ==> !Clash(buckets[k][l], peer)
      {
        for j := 0 to |buckets[i]|
          invariant forall l :: 0 <= l < j ==> !Clash(buckets[i][l], peer)
        {
          if Clash(buckets[i][j], peer) {
            assert Clash(buckets[..][i][j], peer);
            return true;
          }
        }
      }
      return false;
    }

    method RemovePeer(bucketIndex: nat, peerIndex: nat)
      requires bucketIndex < buckets.Length && peerIndex < |buckets[bucketIndex]|
      modifies buckets
      ensures buckets[..] == old(buckets[..])[bucketIndex := Without(old(buckets[bucketIndex]), peerIndex)]
    {
      buckets[bucketIndex] := buckets[bucketIndex][..peerIndex] + buckets[bucketIndex][peerIndex + 1..];
    }

    method PushBack(bucketIndex: nat, peer: Peer)
      requires bucketIndex < buckets.Length
      modifies buckets
      ensures buckets[..] == old(buckets[..])[bucketIndex := old(buckets[bucketIndex]) + [peer]]
    {
      buckets[bucketIndex] := buckets[bucketIndex] + [peer];
    }

    /**
     A newcomer goes to the bucket of its distance. A full bucket lets its least recently seen peer, number
     `oldest`, go if that one has been silent.
     */
    method TryAddPeer(peer: Peer, now: nat) returns (added: bool, ghost oldest: nat)
      requires Valid()
      modifies buckets
      ensures Valid()
      ensures ClashesWithAny(old(buckets[..]), peer) || peer.address == hostAddress ==> !added
      ensures !added ==> buckets[..] == old(buckets[..])
      ensures !ClashesWithAny(old(buckets[..]), peer) && peer.address != hostAddress ==>
                var before, d := old(buckets[..]), Difference(hostAddress, peer.address);
                && d < ADDRESS_BITS
                && if |before[d]| < MAX_BUCKET_SIZE then
                     added && buckets[..] == before[d := before[d] + [peer]]
                   else
                     && LeastRecent(before[d], oldest)
                     && (added <==> QuietFor(now, before[d][oldest].lastSeen) > PATIENCE)
                     && (added ==> buckets[..] == before[d := Without(before[d], oldest) + [peer]])
    {
      hide Difference, ClashesWithAny, QuietFor, BucketOk, EndpointsUnique, Without;
      oldest := 0;
      var clash := FindClash(peer);
      if clash {
        return false, oldest;
      }
      var bucketIndex := CalcDifference(hostAddress, peer.address);
      DifferenceIsLogarithm(hostAddress, peer.address);
      if bucketIndex == ADDRESS_BITS {
        return false, oldest;
      }
      ghost var before := buckets[..];
      if |buckets[bucketIndex]| < MAX_BUCKET_SIZE {
        PushKeeps(hostAddress, before, peer);
        PushBack(bucketIndex, peer);
        return true, oldest;
      }
      var index := GetLeastRecentlySeenPeerIndex(bucketIndex);
      var quietFor := QuietFor(now, buckets[bucketIndex][index].lastSeen);
      if quietFor > PATIENCE {
        EvictKeeps(hostAddress, before, peer, index);
        RemovePeer(bucketIndex, index);
        PushBack(bucketIndex, peer);
        assert buckets[..] == before[bucketIndex := Without(before[bucketIndex], index) + [peer]];
        return true, index;
      }
      return false, index;
    }

    /** Removes that very peer, found by identity. */
    method TryRemovePeer(peer: Peer) returns (removed: bool)
      requires Valid()
      modifies buckets
      ensures Valid()
      ensures var before, d := old(buckets[..]), Difference(hostAddress, peer.address);
              && (removed <==> d < ADDRESS_BITS && peer in before[d])
              && (!removed ==> buckets[..] == before)
              && (removed ==> exists i :: 0 <= i < |before[d]| && before[d][i] == peer
                                          && buckets[..] == before[d := Without(before[d], i)])
    {
      hide Difference, Clash;
      ghost var before := buckets[..];
      for i := 0 to buckets.Length
        invariant buckets[..] == before
        invariant forall k :: 0 <= k < i ==> peer !in before[k]
      {
        assert BucketOk(hostAddress, i, before[i]);
        for j := 0 to |buckets[i]|
          invariant buckets[..] == before
          invariant forall l :: 0 <= l < j ==> before[i][l] != peer
        {
          if buckets[i][j] == peer {
            WithoutWithin(before[i], j);
            ShrinkKeeps(hostAddress, before, i, Without(before[i], j));
            buckets[i] := buckets[i][..j] + buckets[i][j + 1..];
            assert buckets[..] == before[i := Without(before[i], j)];
            return true;
          }
        }
      }
      return false;
    }

    /** Drops the peers whose session is closed, and only those. */
    method RemoveSilent()
      requires Valid()
      modifies buckets
      ensures Valid()
      ensures forall i :: 0 <= i < ADDRESS_BITS ==> buckets[i] == StillOpen(old(buckets[i]))
    {
      hide Difference, Clash, StillOpen, EndpointsUnique, BucketOk;
      ghost var before := buckets[..];
      for i := 0 to buckets.Length
        invariant Valid()
        invariant forall k :: 0 <= k < i ==> buckets[k] == StillOpen(before[k])
        invariant forall k :: i <= k < buckets.Length ==> buckets[k] == before[k]
      {
        ghost var current := buckets[..];
        StillOpenWithin(buckets[i]);
        var kept := RemoveIfClosed(buckets[i]);
        ShrinkKeeps(hostAddress, current, i, kept);
        buckets[i] := kept;
        assert buckets[..] == current[i := kept];
      }
    }

    /** `std::remove_if` and `erase`. */
    method RemoveIfClosed(bucket: seq<Peer>) returns (kept: seq<Peer>)
      ensures kept == StillOpen(bucket)
    {
      kept := [];
      for j := 0 to |bucket|
        invariant kept == StillOpen(bucket[..j])
      {
        assert bucket[..j + 1][..j] == bucket[..j];
        if !bucket[j].isSessionClosed {
          kept := kept + [bucket[j]];
        }
      }
      assert bucket[..|bucket|] == bucket;
    }

    method HasPeerWithEndpoint(endpoint: Endpoint) returns (found: bool)
      ensures found <==> exists i, j :: 0 <= i < buckets.Length && 0 <= j < |buckets[i]|
                                        && (buckets[i][j].publicEndpoint == endpoint
                                            || buckets[i][j].endpoint == endpoint)
    {
      found := false;
      for i := 0 to buckets.Length
        invariant found <==> exists k, l :: 0 <= k < i && 0 <= l < |buckets[k]|
                                            && (buckets[k][l].publicEndpoint == endpoint
                                                || buckets[k][l].endpoint == endpoint)
      {
        for j := 0 to |buckets[i]|
          invariant found <==> exists k, l :: 0 <= k <= i && 0 <= l < (if k < i then |buckets[k]| else j)
                                              && (buckets[k][l].publicEndpoint == endpoint
                                                  || buckets[k][l].endpoint == endpoint)
        {
          if buckets[i][j].publicEndpoint == endpoint || buckets[i][j].endpoint == endpoint {
            found := true;
          }
        }
      }
    }
  }

  lemma {:induction false} EvictKeeps(host: Address, table: Table, peer: Peer, i: nat)
    requires TableOk(host, table) && !ClashesWithAny(table, peer)
    requires Difference(host, peer.address) < ADDRESS_BITS && i < |table[Difference(host, peer.address)]|
    ensures var d := Difference(host, peer.address); TableOk(host, table[d := Without(table[d], i) + [peer]])
  {
    hide Difference, Clash;
    var d := Difference(host, peer.address);
    var shrunk := table[d := Without(table[d], i)];
    assert BucketOk(host, d, table[d]);
    WithoutWithin(table[d], i);
    ShrinkKeeps(host, table, d, Without(table[d], i));
    ShrinkStaysClear(table, d, Without(table[d], i), peer);
    PushKeeps(host, shrunk, peer);
    assert shrunk[d := shrunk[d] + [peer]] == table[d := Without(table[d], i) + [peer]];
  }

  lemma {:induction false} ShrinkStaysClear(table: Table, d: nat, bucket: seq<Peer>, peer: Peer)
    requires d < |table| && Within(bucket, table[d]) && !ClashesWithAny(table, peer)
    ensures !ClashesWithAny(table[d := bucket], peer)
  {
    var after := table[d := bucket];
    forall i, j | 0 <= i < |after| && 0 <= j < |after[i]| ensures !Clash(after[i][j], peer) {
      var j' :| 0 <= j' < |table[i]| && table[i][j'] == after[i][j];
      assert !Clash(table[i][j'], peer);
    }
  }
}
