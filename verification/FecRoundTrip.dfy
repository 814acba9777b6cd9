/** From packet to packet: what a run of the encoder sends, a decoder that gets some
    of it in any order turns back into the packets that are missing. */
module FecRoundTrip {
  import opened Facts
  import opened Options
  import opened Serial
  import opened FecCode
  import opened FecDecoder
  import opened FecRuns
  import opened FecRounds
  import opened FecEncoder

  // ------------------------------------------------------- a run of the encoder

  ghost predicate IsEncoding(c: Codec, d: nat, p: nat, nexts: seq<u32>, fills: seq<seq<Shard>>, calls: seq<Call>) {
    && d > 0 && p > 0 && d + p <= MAX_SHARDS
    && |nexts| == |fills| == |calls| + 1 && nexts[0] == 0 && fills[0] == []
    && forall i :: 0 <= i < |calls| ==> Encodes(c, d, p, nexts[i], fills[i], calls[i], nexts[i + 1], fills[i + 1])
  }

  /** The payloads in groups of d: the full groups, and the one being filled. */
  datatype Filing = Filing(full: seq<seq<seq<byte>>>, cur: seq<seq<byte>>)

  function File(calls: seq<Call>, d: nat): Filing {
    if calls == [] then Filing([], [])
    else
      var f, pay := File(calls[..|calls|-1], d), calls[|calls|-1].payload;
      if |f.cur| + 1 < d then Filing(f.full, f.cur + [pay]) else Filing(f.full + [f.cur + [pay]], [])
  }

  function JoinAll(gs: seq<seq<seq<byte>>>): seq<seq<byte>> {
    if gs == [] then [] else JoinAll(gs[..|gs|-1]) + gs[|gs|-1]
  }

  function Payloads(calls: seq<Call>): seq<seq<byte>> {
    seq(|calls|, i requires 0 <= i < |calls| => calls[i].payload)
  }

  /** Filing loses no packet and keeps their order. */
  lemma {:induction false} FilingKeeps(calls: seq<Call>, d: nat)
    ensures JoinAll(File(calls, d).full) + File(calls, d).cur == Payloads(calls)
  {
    if calls != [] {
      var init, last := calls[..|calls|-1], calls[|calls|-1];
      FilingKeeps(init, d);
      var f := File(init, d);
      assert Payloads(calls) == Payloads(init) + [last.payload];
      assert JoinAll(f.full) + (f.cur + [last.payload]) == JoinAll(f.full) + f.cur + [last.payload];
      if |f.cur| + 1 >= d {
        var full := f.full + [f.cur + [last.payload]];
        assert full[..|full|-1] == f.full && JoinAll(full) + [] == JoinAll(full);
      }
    }
  }

  /** A payload fits the encoder's packets, as a body or not. */
  predicate Small(pay: seq<byte>) { |pay| + 2 < 0x1_0000 }

  function BodiesOf(ps: seq<seq<byte>>): (r: seq<Shard>)
    ensures |r| == |ps|
    ensures forall i :: 0 <= i < |ps| ==> r[i] == if Small(ps[i]) then Body(ps[i]) else []
  {
    seq(|ps|, i requires 0 <= i < |ps| => if Small(ps[i]) then Body(ps[i]) else [])
  }

  /** Everything the calls send, tagged with the number of its group. */
  function Stamped(calls: seq<Call>, d: nat): seq<Arrival> {
    if calls == [] then []
    else
      var init, last := calls[..|calls|-1], calls[|calls|-1];
      var g := |File(init, d).full|;
      Stamped(init, d) + [Arrival(g, last.x)] + seq(|last.parity|, j requires 0 <= j < |last.parity| => Arrival(g, last.parity[j]))
  }

  // -------------------------------------------------- what the encoder stamps

  lemma NextGroupId(g: nat, n: nat)
    requires 0 < n <= MAX_SHARDS
    ensures IdOf(g + 1, n) == if IdOf(g, n) + 1 == Groups(n) then 0 else IdOf(g, n) + 1
  {
    hide Groups;
    PawsGap(n);
    Successor(g, Groups(n));
  }

  /** The arrival is a shard of a full group, or a data shard of the one being filled. */
  ghost predicate Sound(c: Codec, d: nat, n: nat, f: Filing, a: Arrival)
    requires 0 < n <= MAX_SHARDS
  {
    && a.x.seqid / n == IdOf(a.g, n) && a.x.seqid < Paws(n)
    && (a.g < |f.full| ==> |f.full[a.g]| == d && Genuine(c, d, n, BodiesOf(f.full[a.g]), a.x))
    && (a.g >= |f.full| ==> a.g == |f.full| && InFill(n, f.cur, a.x))
  }

  ghost predicate InFill(n: nat, cur: seq<seq<byte>>, x: Pkt)
    requires n > 0
  {
    var i := x.seqid % n;
    i < |cur| && x.flag == TYPE_DATA && x.body == BodiesOf(cur)[i]
  }

  lemma FillBecomesGroup(c: Codec, d: nat, n: nat, cur: seq<seq<byte>>, pay: seq<byte>, x: Pkt)
    requires d <= n && 0 < n && |cur| + 1 == d && InFill(n, cur, x)
    ensures Genuine(c, d, n, BodiesOf(cur + [pay]), x)
  {
    assert BodiesOf(cur + [pay])[x.seqid % n] == BodiesOf(cur)[x.seqid % n];
  }

  /** An earlier packet stays sound when a call adds to the filing. */
  lemma OldStaysSound(c: Codec, d: nat, n: nat, f: Filing, pay: seq<byte>, f': Filing, a: Arrival)
    requires 0 < n <= MAX_SHARDS && 0 < d <= n && |f.cur| < d && Sound(c, d, n, f, a)
    requires f' == if |f.cur| + 1 < d then Filing(f.full, f.cur + [pay]) else Filing(f.full + [f.cur + [pay]], [])
    ensures Sound(c, d, n, f', a)
  {
    hide IdOf, Paws, Genuine, InFill;
    if a.g == |f.full| {
      if |f.cur| + 1 < d { FillGrows(n, f.cur, pay, a.x); } else { FillBecomesGroup(c, d, n, f.cur, pay, a.x); }
    }
  }

  lemma FillGrows(n: nat, cur: seq<seq<byte>>, pay: seq<byte>, x: Pkt)
    requires n > 0 && InFill(n, cur, x)
    ensures InFill(n, cur + [pay], x)
  {
  }

  /** The packet of the call itself. */
  lemma NewIsSound(c: Codec, d: nat, p: nat, f: Filing, next: u32, call: Call, next': u32, fill': seq<Shard>, f': Filing)
    requires 0 < d && 0 < p && d + p <= MAX_SHARDS && Encodes(c, d, p, next, BodiesOf(f.cur), call, next', fill') && next / (d + p) == IdOf(|f.full|, d + p)
    requires f' == if |f.cur| + 1 < d then Filing(f.full, f.cur + [call.payload]) else Filing(f.full + [f.cur + [call.payload]], [])
    ensures Sound(c, d, d + p, f', Arrival(|f.full|, call.x))
  {
    hide Paws, IdOf, GroupParity, Begins, ShardOf;
    var n, more := d + p, f.cur + [call.payload];
    assert BodiesOf(more)[|f.cur|] == call.x.body && call.x.seqid % n == |f.cur| by { AlignedAt(next, |f.cur|, n); }
    assert InFill(n, more, call.x);
    AlignedAt(next, |f.cur|, n);
    if |more| == d { assert Genuine(c, d, n, BodiesOf(more), call.x) by { DataIsGenuine(call.x, |f.cur|, d, p, c, BodiesOf(more)); } }
  }

  lemma AlignedAt(x: u32, i: nat, n: nat)
    requires 0 < n <= MAX_SHARDS && Aligned(x, i, n)
    ensures x % n == i && x < Paws(n)
  {
  }

  /** And the parity it completes. */
  lemma ParityIsSound(c: Codec, d: nat, p: nat, f: Filing, next: u32, call: Call, next': u32, fill': seq<Shard>, f': Filing, j: nat)
    requires 0 < d && 0 < p && d + p <= MAX_SHARDS && Encodes(c, d, p, next, BodiesOf(f.cur), call, next', fill') && next / (d + p) == IdOf(|f.full|, d + p)
    requires f' == if |f.cur| + 1 < d then Filing(f.full, f.cur + [call.payload]) else Filing(f.full + [f.cur + [call.payload]], [])
    requires j < |call.parity|
    ensures Sound(c, d, d + p, f', Arrival(|f.full|, call.parity[j]))
  {
    hide Paws, IdOf, Begins, ShardOf, Aligned, Genuine, GroupParity, Groups;
    var n, more := d + p, f.cur + [call.payload];
    assert BodiesOf(more) == BodiesOf(f.cur) + [Body(call.payload)];
    assert GroupParity(call.parity, next / n, c, d, p, BodiesOf(more));
    ParityInGroup(call.parity, next / n, c, d, p, BodiesOf(more), j);
    ParityIsGenuine(call.parity, next / n, c, d, p, BodiesOf(more), j);
    IdBelow(|f.full|, n);
    BelowPaws(call.parity[j].seqid, IdOf(|f.full|, n), n);
  }

  lemma ParityInGroup(parity: seq<Pkt>, q: int, c: Codec, d: nat, p: nat, bodies: seq<Shard>, j: nat)
    requires 0 < d && 0 < p && |bodies| == d && GroupParity(parity, q, c, d, p, bodies) && j < |parity|
    ensures |parity| == p && parity[j].seqid / (d + p) == q
  {
    assert IsParity(parity[j], q, d + j, d + p, ShardOf(c, d, bodies, d + j));
  }

  lemma IdBelow(g: nat, n: nat)
    requires 0 < n <= MAX_SHARDS
    ensures IdOf(g, n) < Groups(n)
  {
    PawsGap(n);
  }

  lemma BelowPaws(x: u32, q: u32, n: nat)
    requires 0 < n <= MAX_SHARDS && x / n == q < Groups(n)
    ensures x < Paws(n)
  {
    hide Groups;
    PawsGap(n);
    IdInGroup(q, x % n, n);
    assert x == x / n * n + x % n;
  }

  /** What holds between the encoder and its history after k calls. */
  ghost predicate Filed(c: Codec, d: nat, p: nat, next: u32, fill: seq<Shard>, calls: seq<Call>) {
    && 0 < d && 0 < p && d + p <= MAX_SHARDS
    && var f, n := File(calls, d), d + p;
       && fill == BodiesOf(f.cur) && |f.cur| < d && next / n == IdOf(|f.full|, n)
       && (forall g :: 0 <= g < |f.full| ==> |f.full[g]| == d)
       && (forall a :: a in Stamped(calls, d) ==> Sound(c, d, n, f, a))
  }

  lemma StampedNext(calls: seq<Call>, d: nat, a: Arrival)
    requires calls != [] && a in Stamped(calls, d)
    ensures var init, last := calls[..|calls|-1], calls[|calls|-1];
            || a in Stamped(init, d)
            || a == Arrival(|File(init, d).full|, last.x)
            || exists j :: 0 <= j < |last.parity| && a == Arrival(|File(init, d).full|, last.parity[j])
  {
  }

  lemma FiledNext(c: Codec, d: nat, p: nat, next: u32, fill: seq<Shard>, calls: seq<Call>, next': u32, fill': seq<Shard>)
    requires calls != [] && Filed(c, d, p, next, fill, calls[..|calls|-1])
    requires Encodes(c, d, p, next, fill, calls[|calls|-1], next', fill')
    ensures Filed(c, d, p, next', fill', calls)
  {
    hide Sound, Stamped, IdOf, Groups, Aligned, GroupParity;
    var init, call, n := calls[..|calls|-1], calls[|calls|-1], d + p;
    var f, f' := File(init, d), File(calls, d);
    assert BodiesOf(f.cur + [call.payload]) == BodiesOf(f.cur) + [Body(call.payload)];
    NextGroupId(|f.full|, n);
    forall a | a in Stamped(calls, d) ensures Sound(c, d, n, f', a) {
      StampedNext(calls, d, a);
      if a in Stamped(init, d) {
        OldStaysSound(c, d, n, f, call.payload, f', a);
      } else if a == Arrival(|f.full|, call.x) {
        NewIsSound(c, d, p, f, next, call, next', fill', f');
      } else {
        var j :| 0 <= j < |call.parity| && a == Arrival(|f.full|, call.parity[j]);
        ParityIsSound(c, d, p, f, next, call, next', fill', f', j);
      }
    }
  }

  lemma {:induction false} EncodingIsFiled(c: Codec, d: nat, p: nat, nexts: seq<u32>, fills: seq<seq<Shard>>, calls: seq<Call>, k: nat)
    requires IsEncoding(c, d, p, nexts, fills, calls) && k <= |calls|
    ensures Filed(c, d, p, nexts[k], fills[k], calls[..k])
  {
    hide Encodes, Filed;
    if k == 0 {
      NothingFiled(c, d, p);
    } else {
      EncodingIsFiled(c, d, p, nexts, fills, calls, k - 1);
      assert calls[..k][..k - 1] == calls[..k - 1];
      FiledNext(c, d, p, nexts[k - 1], fills[k - 1], calls[..k], nexts[k], fills[k]);
    }
  }

  lemma NothingFiled(c: Codec, d: nat, p: nat)
    requires 0 < d && 0 < p && d + p <= MAX_SHARDS
    ensures Filed(c, d, p, 0, [], [])
  {
    PawsGap(d + p);
  }

  // ------------------------------------------------------------ to the decoder

  /** The groups' bodies; the one being filled is made up with empty ones. */
  ghost function Groupings(f: Filing, d: nat): (gs: seq<seq<Shard>>)
    requires |f.cur| < d
    ensures |gs| == |f.full| + 1
    ensures forall g :: 0 <= g < |f.full| ==> gs[g] == BodiesOf(f.full[g])
    ensures gs[|f.full|] == BodiesOf(f.cur) + seq(d - |f.cur|, _ => [])
  {
    seq(|f.full|, g requires 0 <= g < |f.full| => BodiesOf(f.full[g])) + [BodiesOf(f.cur) + seq(d - |f.cur|, _ => [])]
  }

  lemma SoundIsGenuine(c: Codec, d: nat, n: nat, f: Filing, a: Arrival)
    requires 0 < n <= MAX_SHARDS && 0 < d <= n && |f.cur| < d && Sound(c, d, n, f, a)
    ensures GenuineArrival(c, d, n, Groupings(f, d), a)
  {
    hide IdOf, Paws;
    if a.g == |f.full| {
      var bodies := Groupings(f, d)[a.g];
      assert bodies[a.x.seqid % n] == BodiesOf(f.cur)[a.x.seqid % n];
    }
  }

  /** A decoder with the sender's counts, fed with packets the sender's encoder sent:
      any of them, in any order, any number of times, each close to the newest. */
  ghost predicate IsFed(decs: seq<Dec>, h0: nat, hist: seq<Arrival>, calls: seq<Call>, d: nat, p: nat, c: Codec) {
    && d > 0 && p > 0 && d + p <= 256 && |decs| == |hist| + 1
    && (forall i :: 0 <= i < |hist| ==> hist[i] in Stamped(calls, d))
    && forall i :: 0 <= i < |hist| ==> decs[i + 1] == Fed(decs[i], hist[i].x, c) && Close(hist[i].g, Newest(h0, hist[..i]), d + p)
  }

  /** It starts empty, with group h0 for the newest: new, or just retuned. */
  ghost predicate Receives(decs: seq<Dec>, h0: nat, hist: seq<Arrival>, calls: seq<Call>, d: nat, p: nat, c: Codec) {
    IsFed(decs, h0, hist, calls, d, p, c) && decs[0] == Dec(d, p, map[], IdOf(h0, d + p))
  }

  /** What the encoder sends is genuine to the decoder. */
  lemma ReceivingIsRun(c: Codec, d: nat, p: nat, nexts: seq<u32>, fills: seq<seq<Shard>>, calls: seq<Call>, decs: seq<Dec>, h0: nat, hist: seq<Arrival>)
    requires IsEncoding(c, d, p, nexts, fills, calls) && Receives(decs, h0, hist, calls, d, p, c)
    ensures |decs| == |hist| + 1 && |File(calls, d).cur| < d && IsRun(decs, h0, hist, d, p, c, Groupings(File(calls, d), d))
    ensures forall g :: 0 <= g < |File(calls, d).full| ==> FullGroup(File(calls, d).full[g], d)
  {
    hide Sound, Stamped, IdOf, Close, GenuineArrival, Encodes, File;
    EncodingIsFiled(c, d, p, nexts, fills, calls, |calls|);
    assert calls[..|calls|] == calls;
    var f := File(calls, d);
    forall i | 0 <= i < |hist| ensures GenuineArrival(c, d, d + p, Groupings(f, d), hist[i]) {
      SoundIsGenuine(c, d, d + p, f, hist[i]);
    }
    forall g | 0 <= g < |f.full| ensures FullGroup(f.full[g], d) { GroupsAreSmall(c, d, p, nexts, fills, calls, g); }
  }

  ghost predicate FullGroup(ps: seq<seq<byte>>, d: nat) { |ps| == d && forall i :: 0 <= i < |ps| ==> Small(ps[i]) }

  ghost predicate AllSmall(ps: seq<seq<byte>>) { forall i :: 0 <= i < |ps| ==> Small(ps[i]) }

  lemma {:induction false} FilesSmall(calls: seq<Call>, d: nat)
    requires d > 0 && forall i :: 0 <= i < |calls| ==> Small(calls[i].payload)
    ensures var f := File(calls, d);
            |f.cur| < d && AllSmall(f.cur) && forall g :: 0 <= g < |f.full| ==> FullGroup(f.full[g], d)
  {
    if calls != [] { FilesSmall(calls[..|calls|-1], d); }
  }

  lemma GroupsAreSmall(c: Codec, d: nat, p: nat, nexts: seq<u32>, fills: seq<seq<Shard>>, calls: seq<Call>, g: nat)
    requires IsEncoding(c, d, p, nexts, fills, calls) && g < |File(calls, d).full|
    ensures FullGroup(File(calls, d).full[g], d)
  {
    hide File, Aligned, GroupParity, Begins;
    forall i | 0 <= i < |calls| ensures Small(calls[i].payload) {
      assert Encodes(c, d, p, nexts[i], fills[i], calls[i], nexts[i + 1], fills[i + 1]);
    }
    FilesSmall(calls, d);
  }

  // ------------------------------------------------------------- what goes out

  lemma {:induction false} FillIs(c: Codec, d: nat, p: nat, nexts: seq<u32>, fills: seq<seq<Shard>>, calls: seq<Call>, i: nat)
    requires IsEncoding(c, d, p, nexts, fills, calls) && i <= |calls|
    ensures d > 0 && |fills[i]| == i % d
  {
    hide Aligned, GroupParity, Begins;
    if i > 0 {
      FillIs(c, d, p, nexts, fills, calls, i - 1);
      assert Encodes(c, d, p, nexts[i - 1], fills[i - 1], calls[i - 1], nexts[i], fills[i]);
      Successor(i - 1, d);
    }
  }

  /** Every d-th packet takes the parity of its group with it, all of it, unless that was
      to be passed over; and no other packet takes any. */
  lemma ParityGoesOut(c: Codec, d: nat, p: nat, nexts: seq<u32>, fills: seq<seq<Shard>>, calls: seq<Call>, i: nat)
    requires IsEncoding(c, d, p, nexts, fills, calls) && i < |calls|
    ensures d > 0 && |calls[i].parity| == if (i + 1) % d == 0 && !calls[i].skip then p else 0
  {
    hide Aligned, IsParity, Begins;
    FillIs(c, d, p, nexts, fills, calls, i);
    assert Encodes(c, d, p, nexts[i], fills[i], calls[i], nexts[i + 1], fills[i + 1]);
    Successor(i, d);
  }

  // ---------------------------------------------------------------- the theorem

  /** Position i of the returned shards' group is missing, and behind one of them. */
  lemma {:induction false} AbsentHas(data: seq<Shard>, ids: set<u32>, n: nat, d: nat, i: nat)
    requires 0 < n && i < d <= |data| && !Covers(ids, n, i)
    ensures data[i] in Absent(data, ids, n, d)
  {
    if i < d - 1 { AbsentHas(data, ids, n, d - 1, i); }
  }

  lemma {:induction false} AbsentOnly(data: seq<Shard>, ids: set<u32>, n: nat, d: nat, b: Shard) returns (i: nat)
    requires 0 < n && d <= |data| && b in Absent(data, ids, n, d)
    ensures i < d && !Covers(ids, n, i) && b == data[i]
  {
    if b in Absent(data, ids, n, d - 1) { i := AbsentOnly(data, ids, n, d - 1, b); } else { i := d - 1; }
  }

  /** What arrival k makes the decoder return, when the current round of its group
      began at m: nothing, unless it completes the round; and then a shard for each
      packet of the group of which no shard arrived in the round, and no others. */
  ghost predicate Recovered(decs: seq<Dec>, hist: seq<Arrival>, calls: seq<Call>, c: Codec, d: nat, p: nat, k: nat, m: nat)
    requires m <= k < |hist| && k < |decs| && d + p > 0 && hist[k].g < |File(calls, d).full|
  {
    var g := hist[k].g;
    var out := Returned(decs, hist, c, k);
    && |File(calls, d).full[g]| == d
    && (!Completes(hist, g, d, m, k) ==> out == [])
    && (Completes(hist, g, d, m, k) ==> Gives(out, File(calls, d).full[g], Ids(hist[m..k + 1], g), d + p))
  }

  /** The shards bring back the packets of which none of the ids is a shard, and no others. */
  ghost predicate Gives(out: seq<Shard>, ps: seq<seq<byte>>, ids: set<u32>, n: nat)
    requires n > 0
  {
    && (forall i :: 0 <= i < |ps| && !Covers(ids, n, i) ==> ComesOut(out, ps[i]))
    && (forall b :: b in out ==> ComesFrom(b, ps, ids, n))
  }

  lemma GroupingAt(f: Filing, d: nat, g: nat)
    requires |f.cur| < d && g < |f.full| && FullGroup(f.full[g], d)
    ensures |f.full[g]| == d && g < |Groupings(f, d)| && Groupings(f, d)[g] == BodiesOf(f.full[g])
  {
  }

  lemma ReturnedIsRecovered(decs: seq<Dec>, hist: seq<Arrival>, calls: seq<Call>, c: Codec, d: nat, p: nat, k: nat, m: nat)
    requires m <= k < |hist| && k < |decs| && d + p > 0 && hist[k].g < |File(calls, d).full|
    requires var g, ps := hist[k].g, File(calls, d).full[hist[k].g];
             && FullGroup(ps, d) && |ps| == d
             && Returned(decs, hist, c, k) ==
                  if Completes(hist, g, d, m, k)
                  then Absent(PadAll(BodiesOf(ps), MaxLen(BodiesOf(ps))), Ids(hist[m..k + 1], g), d + p, d) else []
    ensures Recovered(decs, hist, calls, c, d, p, k, m)
  {
    hide Completes, Returned, Ids, File, Absent, Gives, BodiesOf, FullGroup, PadAll, MaxLen;
    var g := hist[k].g;
    if Completes(hist, g, d, m, k) {
      ShardsGivePackets(Returned(decs, hist, c, k), File(calls, d).full[g], Ids(hist[m..k + 1], g), d + p, d);
    }
  }

  /** Packet in, packet out.  Of the packets given to the encoder in the group of the
      arrival that completes a round, exactly those at positions of which no shard has
      arrived in the round come out of the decoder's shards; and nothing else does. */
  lemma PacketsComeBack(c: Codec, d: nat, p: nat, nexts: seq<u32>, fills: seq<seq<Shard>>, calls: seq<Call>,
                        decs: seq<Dec>, h0: nat, hist: seq<Arrival>, k: nat, m: nat)
    requires IsEncoding(c, d, p, nexts, fills, calls) && Receives(decs, h0, hist, calls, d, p, c) && Mds(c, d, p) && m <= k < |hist|
    requires Kept(Newest(h0, hist[..k + 1]), hist[k].g, d + p) && hist[k].g < |File(calls, d).full|
    requires RoundStart(hist, hist[k].g, d, m) && |Ids(hist[m..k], hist[k].g)| < d
    ensures Recovered(decs, hist, calls, c, d, p, k, m)
  {
    hide IsEncoding, Receives, IsRun, Mds, Kept, RoundStart, Completes, Returned, Ids, File, Absent, Gives,
         Groupings, BodiesOf, FullGroup, PadAll, MaxLen, Newest, Recovered;
    var g, f := hist[k].g, File(calls, d);
    ReceivingIsRun(c, d, p, nexts, fills, calls, decs, h0, hist);
    GroupRecovers(decs, h0, hist, d, p, c, Groupings(f, d), k, m);
    assert FullGroup(f.full[g], d);
    GroupingAt(f, d, g);
    ReturnedIsRecovered(decs, hist, calls, c, d, p, k, m);
  }

  lemma ShardsGivePackets(out: seq<Shard>, ps: seq<seq<byte>>, ids: set<u32>, n: nat, d: nat)
    requires 0 < n && FullGroup(ps, d) && out == Absent(PadAll(BodiesOf(ps), MaxLen(BodiesOf(ps))), ids, n, d)
    ensures Gives(out, ps, ids, n)
  {
    hide Absent, Covers, Body, Payload;
    var bodies := BodiesOf(ps);
    var data := PadAll(bodies, MaxLen(bodies));
    forall i | 0 <= i < d && !Covers(ids, n, i) ensures ComesOut(out, ps[i]) {
      AbsentHas(data, ids, n, d, i);
      RecoveredPayload(bodies, i, ps[i]);
      assert data[i] in out && Payload(data[i]) == Some(ps[i]);
    }
    forall b | b in out ensures ComesFrom(b, ps, ids, n) {
      var i := AbsentOnly(data, ids, n, d, b);
      RecoveredPayload(bodies, i, ps[i]);
      assert Payload(b) == Some(ps[i]);
    }
  }

  /** The receiver finds this packet in one of the returned shards. */
  ghost predicate ComesOut(out: seq<Shard>, pay: seq<byte>) { exists b :: b in out && Payload(b) == Some(pay) }

  /** The packet in a returned shard is one of the group whose shard has not arrived. */
  ghost predicate ComesFrom(b: Shard, ps: seq<seq<byte>>, ids: set<u32>, n: nat)
    requires n > 0
  {
    exists i :: 0 <= i < |ps| && !Covers(ids, n, i) && Payload(b) == Some(ps[i])
  }
}
