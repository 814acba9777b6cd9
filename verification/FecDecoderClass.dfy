/** The decoder as it runs: shard sets with their marks, a cache of slots filled by
    emptying a set, and loops over all of them. */
module FecDecoderClass {
  import opened Facts
  import opened Serial
  import opened FecCode
  import opened FecDecoder
  import opened Options
  import opened AutoTune

  /** A shard set: packets in arrival order, and the ids they have. */
  datatype ShardSet = ShardSet(elements: seq<Pkt>, marks: set<u32>)

  ghost predicate Agrees(h: ShardSet) {
    && (forall i :: 0 <= i < |h.elements| ==> h.elements[i].seqid in h.marks)
    && (forall id :: id in h.marks ==> Has(h.elements, id))
  }

  ghost predicate Mirrors(sets: map<u32, ShardSet>, abs: map<u32, seq<Pkt>>) {
    sets.Keys == abs.Keys && forall id :: id in sets ==> sets[id].elements == abs[id] && Agrees(sets[id])
  }

  // -------------------------------------------------------------- emptying a set

  lemma SetIsApart(id: u32, pkts: seq<Pkt>, x: Pkt, d: nat, n: nat)
    requires n > 0 && SetOk(id, pkts, d, n) && x.seqid / n == id && !Has(pkts, x.seqid)
    ensures Apart(pkts + [x], n)
  {
    var all := pkts + [x];
    forall i, j | 0 <= i < j < |all| ensures all[i].seqid % n != all[j].seqid % n {
      assert all[i].seqid / n == id == all[j].seqid / n && all[i].seqid != all[j].seqid;
      SameGroupApart(all[i].seqid, all[j].seqid, n);
    }
  }

  /** Place k after the packets from position i on have been put into their places. */
  ghost predicate PlacedFrom(slots: seq<Option<Shard>>, pkts: seq<Pkt>, i: nat, n: nat, k: nat)
    requires 0 < n == |slots| && i <= |pkts| && k < n
  {
    && (slots[k] == None ==> forall j :: i <= j < |pkts| ==> pkts[j].seqid % n != k)
    && (slots[k] != None ==> exists j :: i <= j < |pkts| && pkts[j].seqid % n == k && slots[k] == Some(pkts[j].body))
  }

  lemma PlacedIsSlots(slots: seq<Option<Shard>>, pkts: seq<Pkt>, n: nat)
    requires 0 < n == |slots| && Apart(pkts, n) && forall k :: 0 <= k < n ==> PlacedFrom(slots, pkts, 0, n, k)
    ensures slots == Slots(pkts, n)
  {
    forall k | 0 <= k < n ensures slots[k] == Slots(pkts, n)[k] {
      assert PlacedFrom(slots, pkts, 0, n, k);
      SlotFilled(pkts, n, k);
      if slots[k] != None && Slots(pkts, n)[k] != None {
        var i :| 0 <= i < |pkts| && pkts[i].seqid % n == k && slots[k] == Some(pkts[i].body);
        var j :| 0 <= j < |pkts| && pkts[j].seqid % n == k && Slots(pkts, n)[k] == Some(pkts[j].body);
        assert i == j;
      }
    }
  }

  lemma PlacedNext(slots: seq<Option<Shard>>, pkts: seq<Pkt>, j: nat, n: nat, k: nat)
    requires |slots| == n && k < n && j < |pkts| && Apart(pkts, n) && PlacedFrom(slots, pkts, j + 1, n, k)
    ensures PlacedFrom(slots[pkts[j].seqid % n := Some(pkts[j].body)], pkts, j, n, k)
  {
  }

  /** Pops every packet into its slot, counting data shards and the longest body. */
  method EmptySet(pkts: seq<Pkt>, n: nat) returns (slots: seq<Option<Shard>>, numData: nat, maxlen: nat)
    requires n > 0 && Apart(pkts, n)
    ensures slots == Slots(pkts, n) && numData == DataCount(pkts) && maxlen == MaxLen(Bodies(pkts))
  {
    slots, numData, maxlen := seq(n, _ => None), 0, 0;
    var rest := pkts;
    while |rest| > 0
      invariant rest == pkts[..|rest|] && |rest| <= |pkts| && |slots| == n
      invariant forall k :: 0 <= k < n ==> PlacedFrom(slots, pkts, |rest|, n, k)
      invariant numData + DataCount(rest) == DataCount(pkts)
      invariant forall i :: |rest| <= i < |pkts| ==> |pkts[i].body| <= maxlen
      invariant maxlen == 0 || exists i :: |rest| <= i < |pkts| && |pkts[i].body| == maxlen
    {
      var x := rest[|rest| - 1];
      ghost var before := slots;
      slots := slots[x.seqid % n := Some(x.body)];
      if x.flag == TYPE_DATA {
        numData := numData + 1;
      }
      if |x.body| > maxlen {
        maxlen := |x.body|;
      }
      rest := rest[..|rest| - 1];
      forall k | 0 <= k < n ensures PlacedFrom(slots, pkts, |rest|, n, k) { PlacedNext(before, pkts, |rest|, n, k); }
    }
    PlacedIsSlots(slots, pkts, n);
    assert forall i :: 0 <= i < |pkts| ==> Bodies(pkts)[i] == pkts[i].body;
  }

  /** The recovered data shards that had not arrived. */
  method CollectMissing(slots: seq<Option<Shard>>, data: seq<Shard>, d: nat) returns (out: seq<Shard>)
    requires d <= |slots| && d <= |data|
    ensures out == Missing(slots, data, d)
  {
    out := [];
    var k := 0;
    while k < d
      invariant 0 <= k <= d && out == Missing(slots, data, k)
    {
      if slots[k].None? {
        out := out + [data[k]];
      }
      k := k + 1;
    }
  }

  /** discardShards: drops the sets too far behind the newest. */
  method DiscardOld(sets: map<u32, ShardSet>, newest: u32, n: nat, ghost abs: map<u32, seq<Pkt>>) returns (kept: map<u32, ShardSet>)
    requires Mirrors(sets, abs)
    ensures Mirrors(kept, Discard(abs, newest, n))
  {
    hide TooOld, Agrees;
    kept := sets;
    var todo := sets.Keys;
    while todo != {}
      invariant todo <= sets.Keys
      invariant forall id :: id in kept <==> id in sets && (id in todo || !TooOld(newest, id, n))
      invariant forall id :: id in kept ==> kept[id] == sets[id]
      decreases |todo|
    {
      var id :| id in todo;
      todo := todo - {id};
      if TooOld(newest, id, n) {
        kept := kept - {id};
      }
    }
  }

  class Decoder {
    var d: nat
    var p: nat
    var shardSet: map<u32, ShardSet>
    var newest: u32
    var shouldTune: bool
    const tune: Tuner
    ghost var dec: Dec

    ghost predicate Valid()
      reads this, tune, tune.pulses
    {
      && Sane(dec) && dec.d == d && dec.p == p && dec.newest == newest && Mirrors(shardSet, dec.sets) && SetsOk(dec)
      && tune.Valid()
    }

    constructor (d: nat, p: nat)
      requires d > 0 && p > 0 && d + p <= 256
      ensures Valid() && dec == Dec(d, p, map[], 0) && !shouldTune && tune.Contents() == [] && fresh(tune) && fresh(tune.pulses)
    {
      this.d, this.p := d, p;
      shardSet, newest, shouldTune := map[], 0, false;
      tune := new Tuner();
      dec := Dec(d, p, map[], 0);
    }

    /** The second half of decode, for a packet of the expected type: collects it and
        recovers when it completes a set. */
    method Decode(x: Pkt, c: Codec) returns (recovered: seq<Shard>)
      requires Valid() && CodecFits(c, d)
      modifies this`shardSet, this`newest, this`dec
      ensures Valid() && dec == Collect(old(dec), x, c).dec && recovered == Collect(old(dec), x, c).recovered
    {
      hide Collect, SetsOk;
      CollectKeepsSets(dec, x, c);
      CollectKeepsShape(dec, x, c);
      var sets, newest';
      sets, newest', recovered := Add(shardSet, newest, x, d, p, c, dec);
      shardSet, newest := sets, newest';
      dec := Collect(dec, x, c).dec;
    }

    /** Takes over the shard counts found in the samples, if they make sense and
        differ, and forgets everything collected under the old ones. */
    method Retune(x: Pkt)
      requires Valid()
      modifies this
      ensures Valid() && (tune.Valid() ==> tune.Contents() == old(tune.Contents()))
      ensures Retuned(tune.Contents(), old(dec), dec, old(shouldTune), shouldTune, x)
    {
      hide SetsOk, Answers;
      var ds := tune.FindPeriod(true);
      var ps := tune.FindPeriod(false);
      ghost var t := tune.Contents();
      if ds > 0 && ps > 0 && ds + ps <= 256 {
        if ds != d || ps != p {
          d, p := ds, ps;
          QuotientFits(x.seqid, ds + ps);
          shardSet, newest := map[], x.seqid / (ds + ps);
          dec := Dec(ds, ps, map[], x.seqid / (ds + ps));
          NothingStored(dec);
        }
        shouldTune := false;
      }
      assert RetunedTo(t, ds, ps, old(dec), dec, old(shouldTune), shouldTune, x);
    }

    /** decode: samples the type, checks the id and the type, retunes after a
        mismatch, and otherwise collects. */
    method Receive(x: Pkt, c: Codec) returns (recovered: seq<Shard>)
      requires Valid() && CodecFits(c, d)
      modifies this, tune, tune.pulses
      ensures Valid() && tune.Contents() == Latest(old(tune.Contents()), Pulse(x.flag == TYPE_DATA, x.seqid))
      ensures x.seqid >= Paws(old(d + p)) ==> dec == old(dec) && recovered == [] && shouldTune == old(shouldTune)
      ensures x.seqid < Paws(old(d + p)) && (old(shouldTune) || !Expected(x, old(d), old(p))) ==>
                Retuned(tune.Contents(), old(dec), dec, true, shouldTune, x) && recovered == []
      ensures !old(shouldTune) && Expected(x, old(d), old(p)) ==>
                !shouldTune && dec == Collect(old(dec), x, c).dec && recovered == Collect(old(dec), x, c).recovered
    {
      hide Collect, Answers, Latest, SetsOk;
      recovered := [];
      tune.Sample(x.flag == TYPE_DATA, x.seqid);
      if x.seqid >= Paws(d + p) {
        return;
      }
      if x.seqid % (d + p) < d {
        if x.flag != TYPE_DATA {
          shouldTune := true;
        }
      } else if x.flag != TYPE_PARITY {
        shouldTune := true;
      }
      if shouldTune {
        Retune(x);
        return;
      }
      recovered := Decode(x, c);
    }
  }

  /** Nothing collected, and the packet's group taken for the newest. */
  ghost predicate Restarted(dec: Dec, d: nat, p: nat, x: Pkt) {
    d + p > 0 && dec.d == d && dec.p == p && dec.sets == map[] && dec.newest == x.seqid / (d + p)
  }

  /** The shard counts ds and ps were found in the samples: they are taken over when
      they make sense, and what was collected is forgotten when they differ. */
  ghost predicate RetunedTo(t: seq<Pulse>, ds: int, ps: int, dec: Dec, dec': Dec, tune: bool, tune': bool, x: Pkt) {
    && Answers(t, true, ds) && Answers(t, false, ps)
    && if ds > 0 && ps > 0 && ds + ps <= 256
       then !tune' && (if ds == dec.d && ps == dec.p then dec' == dec else Restarted(dec', ds, ps, x))
       else tune' == tune && dec' == dec
  }

  ghost predicate Retuned(t: seq<Pulse>, dec: Dec, dec': Dec, tune: bool, tune': bool, x: Pkt) {
    exists ds, ps :: RetunedTo(t, ds, ps, dec, dec', tune, tune', x)
  }

  lemma QuotientFits(x: u32, n: nat)
    requires n > 0
    ensures 0 <= x / n < RANGE
  {
  }

  /** The id is in use, and the type is the one its position calls for. */
  ghost predicate Expected(x: Pkt, d: nat, p: nat) {
    && 0 < d + p <= 256 && x.seqid < Paws(d + p)
    && x.flag == if x.seqid % (d + p) < d then TYPE_DATA else TYPE_PARITY
  }

  /** A decoder that has just retuned is one whose storage stays bounded. */
  lemma RestartedFeeds(dec: Dec, d: nat, p: nat, x: Pkt, c: Codec)
    requires d > 0 && p > 0 && d + p <= 256 && Restarted(dec, d, p, x)
    ensures IsFeed([dec], [], d, p, c)
  {
    hide Collect;
    MulLess(x.seqid / (d + p), Groups(d + p) + 1, d + p) by { GroupLimit(x.seqid, d + p); }
  }

  lemma GroupLimit(x: u32, n: nat)
    requires 0 < n <= MAX_SHARDS
    ensures x / n * n < (Groups(n) + 1) * n
  {
    assert x / n * n <= x < RANGE && 0xffff_ffff < Groups(n) * n + n;
    assert (Groups(n) + 1) * n == Groups(n) * n + n;
  }

  lemma NothingStored(dec: Dec)
    requires Sane(dec) && dec.sets == map[]
    ensures SetsOk(dec)
  {
  }

  /** A decoder that hears one sender retunes exactly when a whole data pulse and a
      whole parity pulse of it, with their neighbours, are among the samples, and
      then to that sender's counts; it keeps what it collected if it had them. */
  lemma RetunesToSender(t: seq<Pulse>, d: nat, p: nat, b: u32, dec: Dec, dec': Dec, tune': bool, x: Pkt)
    requires d > 0 && p > 0 && d + p <= 256 && AutoTune.AllGenuine(t, d, p) && InHalf(b, t)
    requires Retuned(t, dec, dec', true, tune', x)
    ensures !tune' <==> (exists a :: Retained(t, d, p, true, a)) && (exists a :: Retained(t, d, p, false, a))
    ensures tune' ==> dec' == dec
    ensures !tune' ==> dec'.d == d && dec'.p == p && (dec' == dec || Restarted(dec', d, p, x))
  {
    hide Answers, Retained, InHalf;
    var ds, ps :| RetunedTo(t, ds, ps, dec, dec', true, tune', x);
    DetectsExactly(t, d, p, b, true, ds);
    DetectsExactly(t, d, p, b, false, ps);
  }

  /** What the sender's encoder stamps is expected once the counts agree. */
  lemma SenderIsExpected(x: Pkt, d: nat, p: nat, c: Codec, bodies: seq<Shard>)
    requires d > 0 && p > 0 && d + p <= 256 && |bodies| == d && FecCode.Genuine(c, d, d + p, bodies, x) && x.seqid < Paws(d + p)
    ensures Expected(x, d, p)
  {
  }

  /** The set a packet belongs to, new if need be. */
  method SetFor(sets: map<u32, ShardSet>, id: u32, ghost abs: map<u32, seq<Pkt>>) returns (h: ShardSet)
    requires Mirrors(sets, abs)
    ensures h.elements == Stored(abs, id) && Agrees(h)
  {
    if id in sets {
      return sets[id];
    }
    return ShardSet([], {});
  }

  /** The packet joins its set; a set that then has d packets is emptied and decoded. */
  method Fill(h: ShardSet, x: Pkt, d: nat, n: nat, c: Codec) returns (h': ShardSet, recovered: seq<Shard>)
    requires 0 < d <= n && Agrees(h) && !Has(h.elements, x.seqid) && Apart(h.elements + [x], n) && CodecFits(c, d)
    ensures Agrees(h') && h'.elements == After(h.elements, x, d)
    ensures recovered == if |h.elements| + 1 < d then [] else Recover(c, d, n, h.elements + [x])
  {
    hide Agrees, Has, Recover, CodecFits, Apart;
    var all := h.elements + [x];
    if |all| < d {
      AgreesPush(h, x);
      return ShardSet(all, h.marks + {x.seqid}), [];
    }
    recovered := Rebuild(all, d, n, c);
    AgreesEmpty();
    h' := ShardSet([], {});
  }

  method Add(sets: map<u32, ShardSet>, newest: u32, x: Pkt, d: nat, p: nat, c: Codec, ghost dec: Dec)
      returns (sets': map<u32, ShardSet>, newest': u32, recovered: seq<Shard>)
    requires Sane(dec) && dec.d == d && dec.p == p && dec.newest == newest && Mirrors(sets, dec.sets) && SetsOk(dec) && CodecFits(c, d)
    ensures var o := Collect(dec, x, c); Mirrors(sets', o.dec.sets) && newest' == o.dec.newest && recovered == o.recovered
  {
    hide Collect, SetsOk, Mirrors, Agrees, Has, Recover, Discard, TooOld, First, Diff, Stored, CodecFits;
    sets', newest', recovered := sets, newest, [];
    var n := d + p;
    var id := x.seqid / n;
    CollectIs(dec, x, c);
    var h := SetFor(sets, id, dec.sets);
    HasIsMark(h, x.seqid);
    if x.seqid in h.marks {
      return;
    }
    if Diff(First(id, n), First(newest, n)) > 0 {
      newest' := id;
    }
    StoredIsApart(dec, x, id, n);
    h, recovered := Fill(h, x, d, n, c);
    MirrorsUpdate(sets, dec.sets, id, h);
    sets' := DiscardOld(sets[id := h], newest', n, dec.sets[id := h.elements]);
  }

  /** A codec that answers with as many data shards as there are. */
  ghost predicate CodecFits(c: Codec, d: nat) {
    forall slots :: c.rebuild(slots).Some? ==> |c.rebuild(slots).value| >= d
  }

  method Rebuild(all: seq<Pkt>, d: nat, n: nat, c: Codec) returns (recovered: seq<Shard>)
    requires 0 < d <= n && Apart(all, n) && CodecFits(c, d)
    ensures recovered == Recover(c, d, n, all)
  {
    var slots, numData, maxlen := EmptySet(all, n);
    if numData == d {
      return [];
    }
    var padded := PadEach(slots, maxlen);
    var data := c.rebuild(padded);
    if data.None? {
      return [];
    }
    recovered := CollectMissing(slots, data.value, d);
  }

  /** Makes the shards equally long. */
  method PadEach(slots: seq<Option<Shard>>, len: nat) returns (r: seq<Option<Shard>>)
    ensures r == PadSlots(slots, len)
  {
    r := slots;
    var k := 0;
    while k < |slots|
      invariant 0 <= k <= |slots| == |r|
      invariant forall i :: 0 <= i < |slots| ==> r[i] == if i < k then PadSlots(slots, len)[i] else slots[i]
    {
      if r[k].Some? {
        r := r[k := Some(Pad(r[k].value, len))];
      }
      k := k + 1;
    }
  }

  lemma HasIsMark(h: ShardSet, seqid: u32)
    requires Agrees(h)
    ensures seqid in h.marks <==> Has(h.elements, seqid)
  {
  }

  lemma AgreesPush(h: ShardSet, x: Pkt)
    requires Agrees(h)
    ensures Agrees(ShardSet(h.elements + [x], h.marks + {x.seqid}))
  {
    var all := h.elements + [x];
    forall id | id in h.marks + {x.seqid} ensures Has(all, id) {
      if id == x.seqid {
        assert all[|h.elements|].seqid == id;
      } else {
        var i :| 0 <= i < |h.elements| && h.elements[i].seqid == id;
        assert all[i].seqid == id;
      }
    }
  }

  lemma AgreesEmpty()
    ensures Agrees(ShardSet([], {}))
  {
  }

  lemma MirrorsUpdate(sets: map<u32, ShardSet>, abs: map<u32, seq<Pkt>>, id: u32, h: ShardSet)
    requires Mirrors(sets, abs) && Agrees(h)
    ensures Mirrors(sets[id := h], abs[id := h.elements])
  {
  }

  lemma StoredIsApart(dec: Dec, x: Pkt, id: u32, n: nat)
    requires Sane(dec) && SetsOk(dec) && n == Size(dec) && id == x.seqid / n && !Has(Stored(dec.sets, id), x.seqid)
    ensures Apart(Stored(dec.sets, id) + [x], n)
  {
    SetIsApart(id, Stored(dec.sets, id), x, dec.d, n);
  }
}
