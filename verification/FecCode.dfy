/** Erasure coding of packet groups: zero padding, parity, and recovery.  The
    Reed-Solomon codec is any code that recovers the data from enough shards. */
module FecCode {
  import opened Serial
  import opened WireFormat
  import opened Options

  const TYPE_DATA: u16 := 0xf1
  const TYPE_PARITY: u16 := 0xf2

  type Shard = seq<byte>

  /** A packet behind the cipher: sequence id, type, and everything after them. */
  datatype Pkt = Pkt(seqid: u32, flag: u16, body: Shard)

  // ---------------------------------------------------------------- zero padding

  function Zeros(n: nat): (z: Shard)
    ensures |z| == n && forall i :: 0 <= i < n ==> z[i] == 0
  {
    seq(n, _ => 0)
  }

  function Pad(b: Shard, len: nat): (r: Shard)
    ensures |b| <= len ==> |r| == len
  {
    if |b| <= len then b + Zeros(len - |b|) else b
  }

  function PadAll(bs: seq<Shard>, len: nat): (r: seq<Shard>)
    ensures |r| == |bs| && forall i :: 0 <= i < |bs| ==> r[i] == Pad(bs[i], len)
  {
    seq(|bs|, i requires 0 <= i < |bs| => Pad(bs[i], len))
  }

  function MaxLen(bs: seq<Shard>): (m: nat)
    ensures forall i :: 0 <= i < |bs| ==> |bs[i]| <= m
    ensures bs == [] || exists i :: 0 <= i < |bs| && |bs[i]| == m
  {
    if bs == [] then 0
    else
      var m := MaxLen(bs[..|bs|-1]);
      var last := |bs[|bs|-1]|;
      assert forall i :: 0 <= i < |bs| - 1 ==> bs[..|bs|-1][i] == bs[i];
      if last > m || |bs| == 1 then last else m
  }

  /** The size field in front of the payload, and the payload. */
  function Body(payload: seq<byte>): Shard
    requires |payload| + 2 < 0x1_0000
  {
    Put16(|payload| + 2) + payload
  }

  /** What the receiver takes from a recovered shard: r[2:sz], when sz is sane. */
  function Payload(r: Shard): Option<seq<byte>> {
    if |r| >= 2 && 2 <= Get16(r) <= |r| then Some(r[2..Get16(r)]) else None
  }

  /** The size field cuts the padding off again. */
  lemma PayloadRoundTrip(payload: seq<byte>, len: nat)
    requires |payload| + 2 < 0x1_0000 && |payload| + 2 <= len
    ensures Payload(Pad(Body(payload), len)) == Some(payload)
  {
    var r := Pad(Body(payload), len);
    GetPut16(|payload| + 2, payload + Zeros(len - |payload| - 2));
    assert r == Put16(|payload| + 2) + (payload + Zeros(len - |payload| - 2));
    assert r[2..|payload| + 2] == payload;
  }

  // -------------------------------------------------------------------- the codec

  datatype Codec = Codec(parity: seq<Shard> -> seq<Shard>, rebuild: seq<Option<Shard>> -> Option<seq<Shard>>)

  ghost predicate EqualLength(bs: seq<Shard>, len: nat) { forall i :: 0 <= i < |bs| ==> |bs[i]| == len }

  /** Some shards of the codeword are missing, the others are intact. */
  ghost predicate Erased(slots: seq<Option<Shard>>, code: seq<Shard>) {
    |slots| == |code| && forall i :: 0 <= i < |slots| ==> slots[i] == None || slots[i] == Some(code[i])
  }

  function Present(slots: seq<Option<Shard>>): nat {
    if slots == [] then 0 else Present(slots[..|slots|-1]) + if slots[|slots|-1].Some? then 1 else 0
  }

  /** Any d of the d + p shards determine the data. */
  ghost predicate Mds(c: Codec, d: nat, p: nat) {
    && (forall data, len :: |data| == d && EqualLength(data, len) ==> |c.parity(data)| == p && EqualLength(c.parity(data), len))
    && (forall data, len, slots :: |data| == d && EqualLength(data, len) && Erased(slots, data + c.parity(data)) && Present(slots) >= d
          ==> c.rebuild(slots) == Some(data))
  }

  // -------------------------------------------------------------------- recovery

  /** The received shards in their places. */
  function Slots(pkts: seq<Pkt>, n: nat): (r: seq<Option<Shard>>)
    requires n > 0
    ensures |r| == n
  {
    if pkts == [] then seq(n, _ => None)
    else
      var x := pkts[|pkts|-1];
      Slots(pkts[..|pkts|-1], n)[x.seqid % n := Some(x.body)]
  }

  function Bodies(pkts: seq<Pkt>): (r: seq<Shard>)
    ensures |r| == |pkts| && forall i :: 0 <= i < |pkts| ==> r[i] == pkts[i].body
  {
    seq(|pkts|, i requires 0 <= i < |pkts| => pkts[i].body)
  }

  function PadSlots(slots: seq<Option<Shard>>, len: nat): (r: seq<Option<Shard>>)
    ensures |r| == |slots|
    ensures forall i :: 0 <= i < |slots| ==> r[i] == match slots[i] case None => None case Some(b) => Some(Pad(b, len))
  {
    seq(|slots|, i requires 0 <= i < |slots| => match slots[i] case None => None case Some(b) => Some(Pad(b, len)))
  }

  function DataCount(pkts: seq<Pkt>): (c: nat)
    ensures c <= |pkts|
  {
    if pkts == [] then 0 else DataCount(pkts[..|pkts|-1]) + if pkts[|pkts|-1].flag == TYPE_DATA then 1 else 0
  }

  /** The data shards that had not arrived, in order. */
  function Missing(slots: seq<Option<Shard>>, data: seq<Shard>, d: nat): seq<Shard> {
    if d == 0 then []
    else Missing(slots, data, d - 1) + if d <= |slots| && d <= |data| && slots[d-1].None? then [data[d-1]] else []
  }

  /** What a full set of packets yields: nothing when all data shards are there. */
  function Recover(c: Codec, d: nat, n: nat, pkts: seq<Pkt>): seq<Shard>
    requires n > 0
  {
    if DataCount(pkts) == d then []
    else
      var slots := Slots(pkts, n);
      match c.rebuild(PadSlots(slots, MaxLen(Bodies(pkts))))
      case None => []
      case Some(data) => Missing(slots, data, d)
  }

  // ------------------------------------------------------------- genuine packets

  /** Shard i of the group with these data bodies. */
  ghost function ShardOf(c: Codec, d: nat, bodies: seq<Shard>, i: nat): Shard
    requires |bodies| == d
  {
    var code := PadAll(bodies, MaxLen(bodies)) + c.parity(PadAll(bodies, MaxLen(bodies)));
    if i < d then bodies[i] else if i < |code| then code[i] else []
  }

  /** The packet is a shard of the group, of the type its position calls for. */
  ghost predicate Genuine(c: Codec, d: nat, n: nat, bodies: seq<Shard>, x: Pkt)
    requires n > 0 && |bodies| == d
  {
    var i := x.seqid % n;
    x.flag == (if i < d then TYPE_DATA else TYPE_PARITY) && x.body == ShardOf(c, d, bodies, i)
  }

  /** Genuine packets of one group, each position at most once. */
  ghost predicate FromGroup(c: Codec, d: nat, n: nat, bodies: seq<Shard>, pkts: seq<Pkt>)
    requires n > 0 && |bodies| == d
  {
    && (forall i :: 0 <= i < |pkts| ==> Genuine(c, d, n, bodies, pkts[i]))
    && Apart(pkts, n)
  }

  ghost predicate Apart(pkts: seq<Pkt>, n: nat)
    requires n > 0
  {
    forall i, j :: 0 <= i < j < |pkts| ==> pkts[i].seqid % n != pkts[j].seqid % n
  }

  // ------------------------------------------------------ counting filled places

  lemma {:induction false} PresentSet(slots: seq<Option<Shard>>, k: nat, b: Shard)
    requires k < |slots| && slots[k].None?
    ensures Present(slots[k := Some(b)]) == Present(slots) + 1
  {
    var last := |slots| - 1;
    if k < last {
      PresentSet(slots[..last], k, b);
      assert slots[k := Some(b)][..last] == slots[..last][k := Some(b)];
    } else {
      assert slots[k := Some(b)][..last] == slots[..last];
    }
  }

  lemma {:induction false} PresentAll(slots: seq<Option<Shard>>, k: nat)
    requires Present(slots) == |slots| && k < |slots|
    ensures slots[k].Some?
  {
    PresentBound(slots[..|slots|-1]);
    if k < |slots| - 1 { PresentAll(slots[..|slots|-1], k); }
  }

  lemma {:induction false} PresentBound(slots: seq<Option<Shard>>)
    ensures Present(slots) <= |slots|
  {
    if slots != [] { PresentBound(slots[..|slots|-1]); }
  }

  lemma {:induction false} PresentPadded(slots: seq<Option<Shard>>, len: nat)
    ensures Present(PadSlots(slots, len)) == Present(slots)
  {
    if slots != [] {
      PresentPadded(slots[..|slots|-1], len);
      assert PadSlots(slots, len)[..|slots|-1] == PadSlots(slots[..|slots|-1], len);
    }
  }

  lemma {:induction false} NoneAtAll(n: nat)
    ensures Present(seq(n, _ => None)) == 0
  {
    if n > 0 {
      NoneAtAll(n - 1);
      var s: seq<Option<Shard>> := seq(n, _ => None);
      assert s[..n-1] == seq(n - 1, _ => None);
    }
  }

  /** A place is filled exactly by the packet of that position. */
  lemma {:induction false} SlotFilled(pkts: seq<Pkt>, n: nat, k: nat)
    requires n > 0 && k < n
    ensures Slots(pkts, n)[k] == None ==> forall i :: 0 <= i < |pkts| ==> pkts[i].seqid % n != k
    ensures Slots(pkts, n)[k] != None ==> exists i :: 0 <= i < |pkts| && pkts[i].seqid % n == k && Slots(pkts, n)[k] == Some(pkts[i].body)
  {
    if pkts != [] {
      var init, x := pkts[..|pkts|-1], pkts[|pkts|-1];
      SlotFilled(init, n, k);
      if x.seqid % n != k && Slots(init, n)[k] != None {
        var i :| 0 <= i < |init| && init[i].seqid % n == k && Slots(init, n)[k] == Some(init[i].body);
        assert pkts[i] == init[i];
      }
    }
  }

  lemma {:induction false} SlotsPresent(pkts: seq<Pkt>, n: nat)
    requires n > 0 && Apart(pkts, n)
    ensures Present(Slots(pkts, n)) == |pkts|
  {
    if pkts == [] {
      NoneAtAll(n);
    } else {
      var init, x := pkts[..|pkts|-1], pkts[|pkts|-1];
      SlotsPresent(init, n);
      SlotFilled(init, n, x.seqid % n);
      PresentSet(Slots(init, n), x.seqid % n, x.body);
    }
  }

  /** The data packets fill places below d, each its own. */
  lemma {:induction false} DataPresent(c: Codec, d: nat, n: nat, bodies: seq<Shard>, pkts: seq<Pkt>)
    requires 0 < d <= n && |bodies| == d && FromGroup(c, d, n, bodies, pkts)
    ensures Present(Slots(pkts, n)[..d]) == DataCount(pkts)
  {
    if pkts == [] {
      NoneAtAll(d);
      assert Slots(pkts, n)[..d] == seq(d, _ => None);
    } else {
      var init, x := pkts[..|pkts|-1], pkts[|pkts|-1];
      DataPresent(c, d, n, bodies, init);
      SlotFilled(init, n, x.seqid % n);
      var i := x.seqid % n;
      assert Genuine(c, d, n, bodies, x);
      if i < d {
        PresentSet(Slots(init, n)[..d], i, x.body);
        assert Slots(pkts, n)[..d] == Slots(init, n)[..d][i := Some(x.body)];
      } else {
        assert Slots(pkts, n)[..d] == Slots(init, n)[..d];
      }
    }
  }

  lemma {:induction false} MissingNone(slots: seq<Option<Shard>>, data: seq<Shard>, d: nat)
    requires d <= |slots| && forall k :: 0 <= k < d ==> slots[k].Some?
    ensures Missing(slots, data, d) == []
  {
    if d > 0 { MissingNone(slots, data, d - 1); }
  }

  // ------------------------------------------------------------ recovery is exact

  /** Fewer than d data packets among d: one is parity, and parity is as long as the
      longest body. */
  lemma {:induction false} SomeParity(c: Codec, d: nat, n: nat, bodies: seq<Shard>, pkts: seq<Pkt>) returns (i: nat)
    requires n > 0 && |bodies| == d && FromGroup(c, d, n, bodies, pkts) && DataCount(pkts) < |pkts|
    ensures i < |pkts| && d <= pkts[i].seqid % n
  {
    i := |pkts| - 1;
    assert Genuine(c, d, n, bodies, pkts[i]);
    if pkts[i].seqid % n < d {
      assert FromGroup(c, d, n, bodies, pkts[..i]);
      i := SomeParity(c, d, n, bodies, pkts[..i]);
    }
  }

  lemma CodeLengths(c: Codec, d: nat, p: nat, bodies: seq<Shard>, k: nat)
    requires Mds(c, d, p) && |bodies| == d > 0 && k < d + p
    ensures var len := MaxLen(bodies);
            var data := PadAll(bodies, len);
            && |data + c.parity(data)| == d + p && |(data + c.parity(data))[k]| == len
            && Pad(ShardOf(c, d, bodies, k), len) == (data + c.parity(data))[k]
            && |ShardOf(c, d, bodies, k)| <= len && (k >= d ==> |ShardOf(c, d, bodies, k)| == len)
  {
    var len := MaxLen(bodies);
    var data := PadAll(bodies, len);
    assert EqualLength(data, len);
    var code := data + c.parity(data);
    if k < d {
      assert code[k] == data[k] == Pad(bodies[k], len);
    } else {
      assert EqualLength(c.parity(data), len);
      assert |c.parity(data)[k - d]| == len;
      assert code[k] == c.parity(data)[k - d] && ShardOf(c, d, bodies, k) == code[k];
      assert len - |code[k]| == 0 && code[k] + Zeros(0) == code[k];
    }
  }

  /** The length the receiver pads to is the one the sender padded to. */
  lemma SameLength(c: Codec, d: nat, p: nat, bodies: seq<Shard>, pkts: seq<Pkt>)
    requires Mds(c, d, p) && |bodies| == d > 0 && FromGroup(c, d, d + p, bodies, pkts) && DataCount(pkts) < |pkts|
    ensures MaxLen(Bodies(pkts)) == MaxLen(bodies)
  {
    hide Mds, Genuine, DataCount;
    var bs := Bodies(pkts);
    forall i | 0 <= i < |bs| ensures |bs[i]| <= MaxLen(bodies) { GenuineLength(c, d, p, bodies, pkts[i]); }
    var i := SomeParity(c, d, d + p, bodies, pkts);
    GenuineLength(c, d, p, bodies, pkts[i]);
    assert |bs[i]| == MaxLen(bodies);
  }

  lemma GenuineLength(c: Codec, d: nat, p: nat, bodies: seq<Shard>, x: Pkt)
    requires Mds(c, d, p) && |bodies| == d > 0 && Genuine(c, d, d + p, bodies, x)
    ensures |x.body| <= MaxLen(bodies) && (x.seqid % (d + p) >= d ==> |x.body| == MaxLen(bodies))
  {
    hide Mds, ShardOf, PadAll, MaxLen;
    CodeLengths(c, d, p, bodies, x.seqid % (d + p));
  }

  lemma SlotsAreErased(c: Codec, d: nat, p: nat, bodies: seq<Shard>, pkts: seq<Pkt>)
    requires Mds(c, d, p) && |bodies| == d > 0 && FromGroup(c, d, d + p, bodies, pkts)
    ensures var data := PadAll(bodies, MaxLen(bodies));
            Erased(PadSlots(Slots(pkts, d + p), MaxLen(bodies)), data + c.parity(data))
  {
    var n, len := d + p, MaxLen(bodies);
    var data := PadAll(bodies, len);
    CodeLengths(c, d, p, bodies, 0);
    forall k | 0 <= k < n
      ensures PadSlots(Slots(pkts, n), len)[k] == None || PadSlots(Slots(pkts, n), len)[k] == Some((data + c.parity(data))[k])
    {
      SlotFilled(pkts, n, k);
      if Slots(pkts, n)[k] != None {
        var i :| 0 <= i < |pkts| && pkts[i].seqid % n == k && Slots(pkts, n)[k] == Some(pkts[i].body);
        assert Genuine(c, d, n, bodies, pkts[i]);
        CodeLengths(c, d, p, bodies, k);
      }
    }
  }

  /** Recovery is exact: from any d or more distinct shards of a group, in any
      order, the decoder returns exactly the data shards that are not among them,
      padded; nothing when they all are. */
  lemma RecoverExact(c: Codec, d: nat, p: nat, bodies: seq<Shard>, pkts: seq<Pkt>)
    requires Mds(c, d, p) && |bodies| == d > 0 && FromGroup(c, d, d + p, bodies, pkts) && |pkts| >= d
    ensures Recover(c, d, d + p, pkts) == Missing(Slots(pkts, d + p), PadAll(bodies, MaxLen(bodies)), d)
  {
    hide Mds, FromGroup, Slots, DataCount, Missing, MaxLen, PadAll, PadSlots, Bodies;
    if DataCount(pkts) == d {
      NothingMissing(c, d, d + p, bodies, pkts);
    } else {
      Rebuilds(c, d, p, bodies, pkts);
    }
  }

  lemma NothingMissing(c: Codec, d: nat, n: nat, bodies: seq<Shard>, pkts: seq<Pkt>)
    requires 0 < d <= n && |bodies| == d && FromGroup(c, d, n, bodies, pkts) && DataCount(pkts) == d
    ensures Missing(Slots(pkts, n), PadAll(bodies, MaxLen(bodies)), d) == []
  {
    hide FromGroup, Slots, DataCount, Missing, MaxLen, PadAll;
    var slots := Slots(pkts, n);
    DataPresent(c, d, n, bodies, pkts);
    forall k | 0 <= k < d ensures slots[k].Some? { PresentAll(slots[..d], k); }
    MissingNone(slots, PadAll(bodies, MaxLen(bodies)), d);
  }

  lemma GroupApart(c: Codec, d: nat, n: nat, bodies: seq<Shard>, pkts: seq<Pkt>)
    requires n > 0 && |bodies| == d && FromGroup(c, d, n, bodies, pkts)
    ensures Apart(pkts, n)
  {
  }

  lemma PaddedEqual(bodies: seq<Shard>)
    ensures EqualLength(PadAll(bodies, MaxLen(bodies)), MaxLen(bodies))
  {
  }

  lemma Rebuilds(c: Codec, d: nat, p: nat, bodies: seq<Shard>, pkts: seq<Pkt>)
    requires Mds(c, d, p) && |bodies| == d > 0 && FromGroup(c, d, d + p, bodies, pkts) && |pkts| >= d && DataCount(pkts) != d
    ensures c.rebuild(PadSlots(Slots(pkts, d + p), MaxLen(Bodies(pkts)))) == Some(PadAll(bodies, MaxLen(bodies)))
  {
    hide Mds, FromGroup, Slots, DataCount, MaxLen, PadAll, PadSlots, Bodies, Present, Erased, EqualLength;
    var len := MaxLen(bodies);
    assert MaxLen(Bodies(pkts)) == len by { ParityCame(c, d, p, bodies, pkts); SameLength(c, d, p, bodies, pkts); }
    AllPresent(c, d, p, bodies, pkts, len);
    SlotsAreErased(c, d, p, bodies, pkts);
    PaddedEqual(bodies);
    MdsRebuilds(c, d, p, PadAll(bodies, len), len, PadSlots(Slots(pkts, d + p), len));
  }

  lemma ParityCame(c: Codec, d: nat, p: nat, bodies: seq<Shard>, pkts: seq<Pkt>)
    requires |bodies| == d > 0 && FromGroup(c, d, d + p, bodies, pkts) && |pkts| >= d && DataCount(pkts) != d
    ensures DataCount(pkts) < |pkts|
  {
    hide FromGroup, Slots, DataCount;
    DataPresent(c, d, d + p, bodies, pkts);
    PresentBound(Slots(pkts, d + p)[..d]);
  }

  lemma AllPresent(c: Codec, d: nat, p: nat, bodies: seq<Shard>, pkts: seq<Pkt>, len: nat)
    requires |bodies| == d > 0 && FromGroup(c, d, d + p, bodies, pkts)
    ensures Present(PadSlots(Slots(pkts, d + p), len)) == |pkts|
  {
    hide FromGroup, Apart, Slots, Present, PadSlots;
    GroupApart(c, d, d + p, bodies, pkts);
    SlotsPresent(pkts, d + p);
    PresentPadded(Slots(pkts, d + p), len);
  }

  lemma MdsRebuilds(c: Codec, d: nat, p: nat, data: seq<Shard>, len: nat, slots: seq<Option<Shard>>)
    requires Mds(c, d, p) && |data| == d && EqualLength(data, len) && Erased(slots, data + c.parity(data)) && Present(slots) >= d
    ensures c.rebuild(slots) == Some(data)
  {
  }

  /** Every shard that is returned stands for a position that had not arrived, and
      carries the payload that was sent there. */
  lemma {:induction false} MissingAre(slots: seq<Option<Shard>>, bodies: seq<Shard>, len: nat, d: nat, j: nat) returns (k: nat)
    requires d <= |bodies| && d <= |slots| && j < |Missing(slots, PadAll(bodies, len), d)|
    ensures k < d && slots[k].None? && Missing(slots, PadAll(bodies, len), d)[j] == Pad(bodies[k], len)
  {
    var init := Missing(slots, PadAll(bodies, len), d - 1);
    if j < |init| { k := MissingAre(slots, bodies, len, d - 1, j); } else { k := d - 1; }
  }

  /** And every missing position is returned. */
  lemma {:induction false} MissingAll(slots: seq<Option<Shard>>, bodies: seq<Shard>, len: nat, d: nat, k: nat)
    requires k < d <= |bodies| && d <= |slots| && slots[k].None?
    ensures Pad(bodies[k], len) in Missing(slots, PadAll(bodies, len), d)
  {
    if k < d - 1 { MissingAll(slots, bodies, len, d - 1, k); }
  }

  // ------------------------------------------------------------- a code that exists

  /** One data shard repeated: the assumption on codecs can be met. */
  function Repetition(p: nat): Codec {
    Codec((data: seq<Shard>) => if data == [] then [] else seq(p, _ => data[0]), FirstPresent)
  }

  function FirstPresent(slots: seq<Option<Shard>>): Option<seq<Shard>> {
    if slots == [] then None else if slots[0].Some? then Some([slots[0].value]) else FirstPresent(slots[1..])
  }

  lemma {:induction false} FirstIsShard(slots: seq<Option<Shard>>, b: Shard)
    requires (forall i :: 0 <= i < |slots| ==> slots[i] == None || slots[i] == Some(b)) && Present(slots) >= 1
    ensures FirstPresent(slots) == Some([b])
  {
    if slots[0].None? {
      DropNone(slots);
      FirstIsShard(slots[1..], b);
    }
  }

  lemma {:induction false} DropNone(slots: seq<Option<Shard>>)
    requires slots != [] && slots[0].None?
    ensures Present(slots[1..]) == Present(slots)
  {
    if |slots| > 1 {
      DropNone(slots[..|slots|-1]);
      assert slots[1..][..|slots|-2] == slots[..|slots|-1][1..];
    }
  }

  lemma RepetitionIsMds(p: nat)
    ensures Mds(Repetition(p), 1, p)
  {
    var c := Repetition(p);
    forall data, len, slots | |data| == 1 && EqualLength(data, len) && Erased(slots, data + c.parity(data)) && Present(slots) >= 1
      ensures c.rebuild(slots) == Some(data)
    {
      assert forall i :: 0 <= i < |slots| ==> (data + c.parity(data))[i] == data[0];
      FirstIsShard(slots, data[0]);
      assert data == [data[0]];
    }
  }
}
