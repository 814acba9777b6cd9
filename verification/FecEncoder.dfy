/** The encoder: it numbers packets so that data and parity always fall into their
    own positions of a group, across skipped parity, codec errors and the wrap of
    the ids. */
module FecEncoder {
  import opened Facts
  import opened Options
  import opened Serial
  import opened WireFormat
  import opened FecCode
  import opened FecDecoder

  /** The i-th id of a group lies below the limit, and the group's end at most on it. */
  lemma IdInGroup(q: nat, i: nat, n: nat)
    requires 0 < n <= MAX_SHARDS && q < Groups(n) && i <= n
    ensures q * n + i <= Paws(n) < RANGE && (i < n ==> q * n + i < Paws(n))
    ensures i == n && q * n + n < Paws(n) ==> q + 1 < Groups(n) && q * n + n == (q + 1) * n
    ensures i == n && q * n + n == Paws(n) <==> i == n && q + 1 == Groups(n)
  {
    PawsGap(n);
    MulLe(q, Groups(n) - 1, n);
    assert (Groups(n) - 1) * n == Groups(n) * n - n && (q + 1) * n == q * n + n;
    if i == n {
      if q + 1 >= Groups(n) { MulLe(Groups(n), q + 1, n); } else { MulLe(q + 2, Groups(n), n); assert (q + 2) * n == q * n + 2 * n; }
    }
  }

  class Encoder {
    const d: nat
    const p: nat
    const codec: Codec
    var next: u32
    var shardCount: nat
    var shards: seq<Shard>
    var lastPacket: int

    ghost predicate Valid()
      reads this
    {
      && d > 0 && p > 0 && d + p <= MAX_SHARDS && Mds(codec, d, p)
      && shardCount < d && |shards| == shardCount
      && Aligned(next, shardCount, d + p)
    }

    constructor (d: nat, p: nat, codec: Codec)
      requires d > 0 && p > 0 && d + p <= MAX_SHARDS && Mds(codec, d, p)
      ensures Valid() && next == 0 && shards == [] && this.d == d && this.p == p && this.codec == codec
    {
      this.d, this.p, this.codec := d, p, codec;
      next, shardCount, shards, lastPacket := 0, 0, [], 0;
      new;
      PawsGap(d + p);
      DivOfSum(0, 0, d + p);
    }

    /** sealData and sealParity: stamps the next id. */
    method Seal(flag: u16, body: Shard, ghost i: nat) returns (x: Pkt)
      requires d > 0 && p > 0 && d + p <= MAX_SHARDS && Aligned(next, i, d + p)
      modifies this`next
      ensures x == Pkt(old(next), flag, body)
      ensures Follows(old(next), next, i, 1, d + p)
    {
      hide Follows;
      x := Pkt(next, flag, body);
      NextId(next, i, 1, d + p);
      var sum: u32 := next + 1;
      next := Limited(sum, d + p);
    }

    /** skipParity: passes over the parity ids of the group; the sum stays below the
        32-bit range. */
    method SkipParity()
      requires d > 0 && p > 0 && d + p <= MAX_SHARDS && Aligned(next, d, d + p)
      modifies this`next
      ensures Follows(old(next), next, d, p, d + p)
    {
      hide Follows;
      NextId(next, d, p, d + p);
      var sum: u32 := next + p;
      next := Limited(sum, d + p);
    }

    /** Stamps the parity shards of a complete group. */
    method SealParity(shards: seq<Shard>, ghost q: int) returns (parity: seq<Pkt>)
      requires d > 0 && p > 0 && d + p <= MAX_SHARDS && Aligned(next, d, d + p) && next / (d + p) == q && |shards| == p
      modifies this`next
      ensures |parity| == p && forall j :: 0 <= j < p ==> IsParity(parity[j], q, d + j, d + p, shards[j])
      ensures Follows(old(next), next, d, p, d + p)
    {
      hide Aligned;
      parity := [];
      ghost var n := d + p;
      var j := 0;
      while j < p
        invariant 0 <= j <= p && |parity| == j
        invariant forall i :: 0 <= i < j ==> IsParity(parity[i], q, d + i, n, shards[i])
        invariant j < p ==> Aligned(next, d + j, n) && next / n == q
        invariant j == p ==> Follows(old(next), next, d, p, n)
      {
        ghost var was := next;
        var x := Seal(TYPE_PARITY, shards[j], d + j);
        NextId(was, d + j, 1, n);
        parity := parity + [x];
        j := j + 1;
      }
    }

    /** The end of a group: its parity packets, or a gap in their place. */
    method FinishGroup(bodies: seq<Shard>, skip: bool) returns (parity: seq<Pkt>)
      requires d > 0 && p > 0 && d + p <= MAX_SHARDS && Aligned(next, d, d + p) && |bodies| == d && Mds(codec, d, p)
      modifies this`next
      ensures Begins(old(next), next, d + p)
      ensures if skip then parity == [] else GroupParity(parity, old(next) / (d + p), codec, d, p, bodies)
    {
      hide IsParity, Mds, Paws, Groups, Aligned, Follows, Begins, GroupParity, PadAll, MaxLen, ShardOf;
      parity := [];
      ghost var was := next;
      if skip {
        SkipParity();
      } else {
        ghost var q := next / (d + p);
        var shards := codec.parity(PadAll(bodies, MaxLen(bodies)));
        ParityShards(codec, d, p, bodies);
        parity := SealParity(shards, q);
        ParityOfGroup(parity, q, codec, d, p, bodies);
      }
      FollowsToEnd(was, next, d, p, d + p);
    }

    /** encode: numbers a data packet, and when it completes its group adds the
        parity packets, or passes over their ids when the packets came too slowly or
        the codec failed. */
    method Encode(payload: seq<byte>, now: int, rto: int, err: bool) returns (x: Pkt, parity: seq<Pkt>)
      requires Valid() && |payload| + 2 < 0x1_0000
      modifies this
      ensures Valid() && lastPacket == now
      ensures Encodes(codec, d, p, old(next), old(shards), Call(payload, now - old(lastPacket) >= rto || err, x, parity), next, shards)
    {
      hide Follows, IsParity, Mds, Paws, Groups, Aligned, GroupParity, Begins;
      x := Seal(TYPE_DATA, Body(payload), shardCount);
      FollowsWithin(x.seqid, next, shardCount, 1, d + p);
      shards, shardCount := shards + [Body(payload)], shardCount + 1;
      var last := lastPacket;
      lastPacket := now;
      parity := [];
      if shardCount == d {
        var bodies := shards;
        shardCount, shards := 0, [];
        ghost var mid := next;
        parity := FinishGroup(bodies, now - last >= rto || err);
        BeginsToo(x.seqid, mid, next, d + p);
      }
    }
  }

  /** newFECEncoder: no encoder without positive counts, or without a codec for them. */
  method NewEncoder(d: int, p: int, codec: Option<Codec>) returns (enc: Encoder?)
    requires d > 0 && p > 0 && codec.Some? ==> d + p <= MAX_SHARDS && Mds(codec.value, d, p)
    ensures enc == null <==> d <= 0 || p <= 0 || codec.None?
    ensures enc != null ==> fresh(enc) && enc.Valid() && enc.next == 0 && enc.shards == [] && enc.d == d && enc.p == p && Some(enc.codec) == codec
  {
    if d <= 0 || p <= 0 || codec.None? {
      return null;
    }
    enc := new Encoder(d, p, codec.value);
  }

  /** A call of encode: the packet, whether its group's parity is passed over if it
      completes one, and what goes out. */
  datatype Call = Call(payload: seq<byte>, skip: bool, x: Pkt, parity: seq<Pkt>)

  /** What encode does to the next id and to the group being filled. */
  ghost predicate Encodes(c: Codec, d: nat, p: nat, next: u32, shards: seq<Shard>, call: Call, next': u32, shards': seq<Shard>) {
    && 0 < d + p <= MAX_SHARDS && |call.payload| + 2 < 0x1_0000 && |shards| < d && |shards'| < d
    && var n, more := d + p, shards + [Body(call.payload)];
       && call.x == Pkt(next, TYPE_DATA, Body(call.payload))
       && Aligned(next, |shards|, n) && Aligned(next', |shards'|, n)
       && if |more| < d then call.parity == [] && shards' == more && next' / n == next / n
          else shards' == [] && Begins(next, next', n) &&
               if call.skip then call.parity == [] else GroupParity(call.parity, next / n, c, d, p, more)
  }

  /** The first id of the group after that of x. */
  ghost predicate Begins(x: u32, x': u32, n: nat)
    requires 0 < n <= MAX_SHARDS
  {
    Aligned(x', 0, n) && x' / n == if x / n + 1 == Groups(n) then 0 else x / n + 1
  }

  lemma BeginsToo(x: u32, mid: u32, x': u32, n: nat)
    requires 0 < n <= MAX_SHARDS && mid / n == x / n && Begins(mid, x', n)
    ensures Begins(x, x', n) && Aligned(x', 0, n)
  {
  }

  /** All parity packets of a group, in their positions. */
  ghost predicate GroupParity(parity: seq<Pkt>, q: int, c: Codec, d: nat, p: nat, bodies: seq<Shard>)
    requires d + p > 0 && |bodies| == d
  {
    |parity| == p && forall j :: 0 <= j < p ==> IsParity(parity[j], q, d + j, d + p, ShardOf(c, d, bodies, d + j))
  }

  /** A parity packet in position i of group q. */
  ghost predicate IsParity(x: Pkt, q: int, i: nat, n: nat, body: Shard)
    requires n > 0
  {
    x.flag == TYPE_PARITY && x.seqid % n == i && x.seqid / n == q && x.body == body
  }

  lemma FollowsToEnd(x: u32, x': u32, i: nat, k: nat, n: nat)
    requires 0 < n <= MAX_SHARDS && Follows(x, x', i, k, n) && i + k == n
    ensures Begins(x, x', n)
  {
  }

  lemma FollowsWithin(x: u32, x': u32, i: nat, k: nat, n: nat)
    requires 0 < n <= MAX_SHARDS && Follows(x, x', i, k, n) && i + k < n
    ensures Aligned(x', i + k, n) && x' / n == x / n
  {
  }

  lemma ParityOfGroup(parity: seq<Pkt>, q: int, c: Codec, d: nat, p: nat, bodies: seq<Shard>)
    requires Mds(c, d, p) && |bodies| == d > 0 && |parity| == p == |c.parity(PadAll(bodies, MaxLen(bodies)))|
    requires forall j :: 0 <= j < p ==> IsParity(parity[j], q, d + j, d + p, c.parity(PadAll(bodies, MaxLen(bodies)))[j])
    ensures GroupParity(parity, q, c, d, p, bodies)
  {
    hide IsParity, Mds, PadAll, MaxLen, ShardOf;
    ParityShards(c, d, p, bodies);
  }

  lemma ParityShards(c: Codec, d: nat, p: nat, bodies: seq<Shard>)
    requires Mds(c, d, p) && |bodies| == d > 0
    ensures var ps := c.parity(PadAll(bodies, MaxLen(bodies)));
            |ps| == p && forall j :: 0 <= j < p ==> ps[j] == ShardOf(c, d, bodies, d + j)
  {
    hide Mds, PadAll, MaxLen, EqualLength;
    PaddedEqual(bodies);
    ParityCount(c, d, p, PadAll(bodies, MaxLen(bodies)), MaxLen(bodies));
  }

  lemma ParityCount(c: Codec, d: nat, p: nat, data: seq<Shard>, len: nat)
    requires Mds(c, d, p) && |data| == d && EqualLength(data, len)
    ensures |c.parity(data)| == p
  {
  }

  /** Ids start again at the limit. */
  function Limited(x: nat, n: nat): u32
    requires 0 < n <= MAX_SHARDS
  {
    PawsGap(n);
    x % Paws(n)
  }

  /** Id x is in position i of its group, and below the limit. */
  ghost predicate Aligned(x: u32, i: nat, n: nat)
    requires 0 < n <= MAX_SHARDS
  {
    i < n && x % n == i && x < Paws(n)
  }

  /** From position i of a group, k ids on: later in the group, or, when that is its
      end, at the beginning of the next one, the first after the last. */
  ghost predicate Follows(x: u32, x': u32, i: nat, k: nat, n: nat)
    requires 0 < n <= MAX_SHARDS
  {
    if i + k < n then Aligned(x', i + k, n) && x' / n == x / n
    else Aligned(x', 0, n) && x' / n == if x / n + 1 == Groups(n) then 0 else x / n + 1
  }

  lemma NextId(x: u32, i: nat, k: nat, n: nat)
    requires 0 < n <= MAX_SHARDS && Aligned(x, i, n) && 0 < k && i + k <= n
    ensures x + k <= Paws(n) < RANGE && Follows(x, Limited(x + k, n), i, k, n)
    ensures x < Paws(n) && x % n == i
  {
    hide Groups, Paws, Limited, Aligned;
    var q := WhereAligned(x, i, n);
    IdInGroup(q, i, n);
    IdInGroup(q, i + k, n);
    LimitedIs(x + k, n);
    if i + k < n {
      MakeAligned(q, i + k, n);
    } else if q + 1 == Groups(n) {
      StartsAgain(n);
    } else {
      MakeAligned(q + 1, 0, n);
    }
  }

  lemma MakeAligned(q: nat, i: nat, n: nat)
    requires 0 < n <= MAX_SHARDS && q < Groups(n) && i < n
    ensures 0 <= q * n + i < RANGE && Aligned(q * n + i, i, n) && (q * n + i) / n == q
  {
    MulLe(0, q, n);
    IdInGroup(q, i, n);
    DivOfSum(q, i, n);
  }

  lemma WhereAligned(x: u32, i: nat, n: nat) returns (q: nat)
    requires 0 < n <= MAX_SHARDS && Aligned(x, i, n)
    ensures q == x / n < Groups(n) && x == q * n + i && x < Paws(n) && x % n == i < n
  {
    hide Groups, Paws;
    DivBelowPaws(x, n);
    q := x / n;
  }

  lemma DivBelowPaws(x: u32, n: nat)
    requires 0 < n <= MAX_SHARDS && x < Paws(n)
    ensures 0 <= x / n < Groups(n) && x == x / n * n + x % n
  {
    DivBelow(x, n, Groups(n));
  }

  lemma StartsAgain(n: nat)
    requires 0 < n <= MAX_SHARDS
    ensures Aligned(0, 0, n) && 0 / n == 0
  {
    PawsGap(n);
    DivOfSum(0, 0, n);
  }

  lemma LimitedIs(x: nat, n: nat)
    requires 0 < n <= MAX_SHARDS && x <= Paws(n)
    ensures Limited(x, n) == if x == Paws(n) then 0 else x
  {
    hide Paws, Groups;
    PawsGap(n);
    if x < Paws(n) { SmallMod(x, Paws(n)); } else { SelfMod(x); }
  }

  /** What the encoder stamps is what the decoder takes for genuine. */
  lemma DataIsGenuine(x: Pkt, i: nat, d: nat, p: nat, c: Codec, bodies: seq<Shard>)
    requires 0 < d && 0 < p && d + p <= MAX_SHARDS && Aligned(x.seqid, i, d + p) && i < d == |bodies|
    requires x.flag == TYPE_DATA && x.body == bodies[i]
    ensures Genuine(c, d, d + p, bodies, x)
  {
  }

  lemma ParityIsGenuine(parity: seq<Pkt>, q: int, c: Codec, d: nat, p: nat, bodies: seq<Shard>, j: nat)
    requires 0 < d && 0 < p && |bodies| == d && GroupParity(parity, q, c, d, p, bodies) && j < p
    ensures Genuine(c, d, d + p, bodies, parity[j])
  {
    assert IsParity(parity[j], q, d + j, d + p, ShardOf(c, d, bodies, d + j));
  }
}
