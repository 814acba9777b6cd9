/** When a group recovers, said in terms of what has arrived: in rounds of d distinct
    shards, counted from the beginning or from the last recovery. */
module FecRounds {
  import opened Options
  import opened Serial
  import opened FecCode
  import opened FecDecoder
  import opened FecRuns

  /** The distinct ids of group g that have arrived. */
  function Ids(hist: seq<Arrival>, g: nat): set<u32> {
    set i | 0 <= i < |hist| && hist[i].g == g :: hist[i].x.seqid
  }

  /** A round of group g begins before arrival m: at the beginning, or when the
      arrival before m was the d-th distinct shard of the round before. */
  ghost predicate RoundStart(hist: seq<Arrival>, g: nat, d: nat, m: nat)
    decreases m
  {
    m == 0 || (m <= |hist| && exists m0: nat :: m0 < m && Completes(hist, g, d, m0, m - 1) && RoundStart(hist, g, d, m0))
  }

  /** Arrival k is the d-th distinct shard of group g since m. */
  ghost predicate Completes(hist: seq<Arrival>, g: nat, d: nat, m: nat, k: nat) {
    && m <= k < |hist| && hist[k].g == g
    && |Ids(hist[m..k], g)| + 1 == d && hist[k].x.seqid !in Ids(hist[m..k], g)
  }

  // --------------------------------------------------------- what is collected

  ghost predicate HoldsExactly(a: seq<Pkt>, ids: set<u32>) {
    |a| == |ids| && forall id :: Has(a, id) <==> id in ids
  }

  lemma IdsNext(hist: seq<Arrival>, g: nat, m: nat, k: nat)
    requires m <= k < |hist|
    ensures Ids(hist[m..k + 1], g) == Ids(hist[m..k], g) + if hist[k].g == g then {hist[k].x.seqid} else {}
  {
    var s, s' := hist[m..k], hist[m..k + 1];
    assert s' == s + [hist[k]];
    forall id ensures id in Ids(s', g) <==> id in Ids(s, g) || (hist[k].g == g && id == hist[k].x.seqid) {
      if i :| 0 <= i < |s| && s[i].g == g && s[i].x.seqid == id { assert s'[i] == s[i]; }
      if i :| 0 <= i < |s'| && s'[i].g == g && s'[i].x.seqid == id { assert i < |s| ==> s[i] == s'[i]; }
      if hist[k].g == g && id == hist[k].x.seqid { assert s'[|s|] == hist[k]; }
    }
  }

  lemma HasMore(a: seq<Pkt>, x: Pkt, ids: set<u32>)
    requires HoldsExactly(a, ids) && x.seqid !in ids
    ensures HoldsExactly(a + [x], ids + {x.seqid})
  {
    forall id ensures Has(a + [x], id) <==> id in ids + {x.seqid} {
      if Has(a, id) { var i :| 0 <= i < |a| && a[i].seqid == id; assert (a + [x])[i] == a[i]; }
      if id == x.seqid { assert (a + [x])[|a|] == x; }
      if Has(a + [x], id) {
        var i :| 0 <= i < |a + [x]| && (a + [x])[i].seqid == id;
        assert i < |a| ==> a[i].seqid == id;
      }
    }
  }

  lemma AloneAfter(hist: seq<Arrival>, g: nat, d: nat, k: nat)
    requires k < |hist|
    ensures var a, last := Alone(hist[..k], g, d), hist[k];
            Alone(hist[..k + 1], g, d) ==
              if last.g != g || Has(a, last.x.seqid) then a else if |a| + 1 < d then a + [last.x] else []
  {
    assert hist[..k + 1][..k] == hist[..k];
  }

  /** In a round, the collected shards are exactly the distinct ones that arrived. */
  lemma {:induction false} CollectedInRound(hist: seq<Arrival>, g: nat, d: nat, m: nat, k: nat)
    requires m <= k <= |hist| && Alone(hist[..m], g, d) == [] && |Ids(hist[m..k], g)| < d
    ensures HoldsExactly(Alone(hist[..k], g, d), Ids(hist[m..k], g))
    decreases k
  {
    hide Alone, Has, Ids;
    if k == m {
      assert Ids(hist[m..m], g) == {} by { NoIds(hist, g, m); }
      NothingHeld();
    } else {
      hide HoldsExactly;
      IdsNext(hist, g, m, k - 1);
      var before, last := Ids(hist[m..k - 1], g), hist[k - 1];
      IdsGrow(before, last.x.seqid);
      CollectedInRound(hist, g, d, m, k - 1);
      AloneAfter(hist, g, d, k - 1);
      if last.g == g { CollectsOne(Alone(hist[..k - 1], g, d), before, last.x, d); }
    }
  }

  lemma IdsGrow(ids: set<u32>, id: u32)
    ensures |ids| <= |ids + {id}|
  {
    if id in ids { assert ids + {id} == ids; }
  }

  /** A shard of the group joins the others, unless it is among them. */
  lemma CollectsOne(a: seq<Pkt>, ids: set<u32>, x: Pkt, d: nat)
    requires HoldsExactly(a, ids) && |ids + {x.seqid}| < d
    ensures HoldsExactly(if Has(a, x.seqid) then a else if |a| + 1 < d then a + [x] else [], ids + {x.seqid})
  {
    hide Has;
    if x.seqid in ids {
      assert ids + {x.seqid} == ids;
    } else {
      assert |ids + {x.seqid}| == |ids| + 1;
      HasMore(a, x, ids);
    }
  }

  lemma NoIds(hist: seq<Arrival>, g: nat, m: nat)
    requires m <= |hist|
    ensures Ids(hist[m..m], g) == {}
  {
  }

  lemma NothingHeld()
    ensures HoldsExactly([], {})
  {
  }

  /** The d-th distinct shard empties the group. */
  lemma CompletingEmpties(hist: seq<Arrival>, g: nat, d: nat, m: nat, k: nat)
    requires Completes(hist, g, d, m, k) && Alone(hist[..m], g, d) == []
    ensures Alone(hist[..k + 1], g, d) == []
  {
    hide Alone, Has, Ids;
    CollectedInRound(hist, g, d, m, k);
    AloneAfter(hist, g, d, k);
  }

  lemma {:induction false} RoundIsEmpty(hist: seq<Arrival>, g: nat, d: nat, m: nat)
    requires RoundStart(hist, g, d, m) && m <= |hist|
    ensures Alone(hist[..m], g, d) == []
    decreases m
  {
    hide Completes;
    if m > 0 {
      var m0: nat :| m0 < m && Completes(hist, g, d, m0, m - 1) && RoundStart(hist, g, d, m0);
      RoundIsEmpty(hist, g, d, m0);
      CompletingEmpties(hist, g, d, m0, m - 1);
    }
  }

  /** Every arrival belongs to a round of its group. */
  lemma {:induction false} CurrentRound(hist: seq<Arrival>, g: nat, d: nat, k: nat) returns (m: nat)
    requires d > 0 && k <= |hist|
    ensures m <= k && RoundStart(hist, g, d, m) && |Ids(hist[m..k], g)| < d
    decreases k
  {
    hide Ids, RoundStart;
    m := 0;
    assert RoundStart(hist, g, d, 0) by { FirstRound(hist, g, d); }
    if k == 0 {
      NoIds(hist, g, 0);
    } else {
      m := CurrentRound(hist, g, d, k - 1);
      IdsNext(hist, g, m, k - 1);
      var before, last := Ids(hist[m..k - 1], g), hist[k - 1];
      if last.g == g && last.x.seqid !in before {
        assert |before + {last.x.seqid}| == |before| + 1;
        if |before| + 1 == d {
          NextRound(hist, g, d, m, k);
          NoIds(hist, g, k);
          m := k;
        }
      } else {
        assert before + {last.x.seqid} == before || last.g != g;
      }
    }
  }

  lemma FirstRound(hist: seq<Arrival>, g: nat, d: nat)
    ensures RoundStart(hist, g, d, 0)
  {
  }

  lemma NextRound(hist: seq<Arrival>, g: nat, d: nat, m: nat, k: nat)
    requires RoundStart(hist, g, d, m) && 0 < k && Completes(hist, g, d, m, k - 1)
    ensures RoundStart(hist, g, d, k)
  {
  }

  // ------------------------------------------------------------ what is returned

  /** The shards at the positions below d of which no id is there, in order. */
  ghost function Absent(data: seq<Shard>, ids: set<u32>, n: nat, d: nat): seq<Shard>
    requires 0 < n && d <= |data|
  {
    if d == 0 then []
    else Absent(data, ids, n, d - 1) + if Covers(ids, n, d - 1) then [] else [data[d - 1]]
  }

  ghost predicate Covers(ids: set<u32>, n: nat, i: nat)
    requires n > 0
  {
    exists id :: id in ids && id % n == i
  }

  lemma SlotIsCovered(pkts: seq<Pkt>, ids: set<u32>, n: nat, i: nat)
    requires n > 0 && i < n && HoldsExactly(pkts, ids)
    ensures Slots(pkts, n)[i] == None <==> !Covers(ids, n, i)
  {
    SlotFilled(pkts, n, i);
    if Slots(pkts, n)[i] != None {
      var j :| 0 <= j < |pkts| && pkts[j].seqid % n == i;
      assert Has(pkts, pkts[j].seqid);
    }
    if Covers(ids, n, i) {
      var id :| id in ids && id % n == i;
      assert Has(pkts, id);
    }
  }

  lemma {:induction false} MissingIsAbsent(pkts: seq<Pkt>, ids: set<u32>, data: seq<Shard>, n: nat, d: nat)
    requires n > 0 && d <= n && d <= |data| && HoldsExactly(pkts, ids)
    ensures Missing(Slots(pkts, n), data, d) == Absent(data, ids, n, d)
  {
    hide Slots, HoldsExactly, Covers;
    if d > 0 {
      MissingIsAbsent(pkts, ids, data, n, d - 1);
      SlotIsCovered(pkts, ids, n, d - 1);
    }
  }

  /** Round trip: while its group is kept, the arrival of the d-th distinct shard of
      a round of the group makes the decoder return exactly the group's data shards of
      which none of the d is one, padded; every other arrival of the group returns
      nothing.  Order, duplicates and other groups in between do not matter.  A round
      begins with the first arrival (m is 0), and again behind every recovery. */
  lemma GroupRecovers(decs: seq<Dec>, h0: nat, hist: seq<Arrival>, d: nat, p: nat, c: Codec, groups: seq<seq<Shard>>, k: nat, m: nat)
    requires IsRun(decs, h0, hist, d, p, c, groups) && Mds(c, d, p) && m <= k < |hist|
    requires Kept(Newest(h0, hist[..k + 1]), hist[k].g, d + p)
    requires RoundStart(hist, hist[k].g, d, m) && |Ids(hist[m..k], hist[k].g)| < d
    ensures hist[k].g < |groups| && |groups[hist[k].g]| == d
    ensures var g, bodies := hist[k].g, groups[hist[k].g];
            Returned(decs, hist, c, k) ==
              if Completes(hist, g, d, m, k)
              then Absent(PadAll(bodies, MaxLen(bodies)), Ids(hist[m..k + 1], g), d + p, d) else []
  {
    hide IsRun, Alone, Has, Ids, Mds, Kept, RoundStart, Absent, Missing, Slots, Returned;
    var g, x := hist[k].g, hist[k].x;
    RecoversAsAlone(decs, h0, hist, d, p, c, groups, k);
    RoundIsEmpty(hist, g, d, m);
    CollectedInRound(hist, g, d, m, k);
    IdsNext(hist, g, m, k);
    var cur, bodies := Alone(hist[..k], g, d), groups[g];
    if Completes(hist, g, d, m, k) {
      HasMore(cur, x, Ids(hist[m..k], g));
      MissingIsAbsent(cur + [x], Ids(hist[m..k + 1], g), PadAll(bodies, MaxLen(bodies)), d + p, d);
    }
  }

  /** The first recovery, without rounds: d - 1 distinct shards of the group before
      arrival k, and a new one now. */
  lemma FirstRecovery(decs: seq<Dec>, h0: nat, hist: seq<Arrival>, d: nat, p: nat, c: Codec, groups: seq<seq<Shard>>, k: nat)
    requires IsRun(decs, h0, hist, d, p, c, groups) && Mds(c, d, p) && k < |hist|
    requires Kept(Newest(h0, hist[..k + 1]), hist[k].g, d + p) && |Ids(hist[..k], hist[k].g)| < d
    ensures hist[k].g < |groups| && |groups[hist[k].g]| == d
    ensures var g, bodies := hist[k].g, groups[hist[k].g];
            Returned(decs, hist, c, k) ==
              if |Ids(hist[..k], g)| == d - 1 && hist[k].x.seqid !in Ids(hist[..k], g)
              then Absent(PadAll(bodies, MaxLen(bodies)), Ids(hist[..k + 1], g), d + p, d) else []
  {
    hide IsRun, Ids, Mds, Kept, Absent, Returned;
    assert hist[0..k] == hist[..k] && hist[0..k + 1] == hist[..k + 1];
    GroupRecovers(decs, h0, hist, d, p, c, groups, k, 0);
  }

  /** The copy of the only data shard of group 0, delivered twice. */
  ghost function Twice(b: Shard): seq<Arrival> { [Arrival(0, Pkt(1, TYPE_PARITY, b)), Arrival(0, Pkt(1, TYPE_PARITY, b))] }

  ghost function TwiceFed(b: Shard): seq<Dec> {
    var c, x := Repetition(1), Pkt(1, TYPE_PARITY, b);
    var dec := Dec(1, 1, map[], 0);
    [dec, Fed(dec, x, c), Fed(Fed(dec, x, c), x, c)]
  }

  lemma TwiceIsRun(b: Shard)
    ensures IsRun(TwiceFed(b), 0, Twice(b), 1, 1, Repetition(1), [[b]])
    ensures Kept(Newest(0, Twice(b)[..1]), 0, 2) && Kept(Newest(0, Twice(b)[..2]), 0, 2)
  {
    hide Fed, Repetition;
    var hist := Twice(b);
    assert hist[..0] == [] && hist[..1] == [hist[0]] && hist[..2] == hist;
    assert Newest(0, hist[..1]) == 0 && Newest(0, hist[..2]) == 0;
    assert GenuineArrival(Repetition(1), 1, 2, [[b]], hist[0]) by { CopyIsGenuine(b); }
  }

  lemma CopyIsGenuine(b: Shard)
    ensures GenuineArrival(Repetition(1), 1, 2, [[b]], Arrival(0, Pkt(1, TYPE_PARITY, b)))
  {
    assert Pad(b, |b|) == b && PadAll([b], |b|) == [b];
  }

  lemma CopyIsAbsent(b: Shard)
    ensures Absent(PadAll([b], MaxLen([b])), {1}, 2, 1) == [b]
  {
    assert Pad(b, |b|) == b && PadAll([b], |b|) == [b];
    assert !Covers({1}, 2, 0) && Absent([b], {1}, 2, 0) == [];
  }

  /** A group can recover again: with one data shard and a copy of it, the copy
      delivered twice returns the shard twice. */
  lemma RecoversTwice(b: Shard, k: nat)
    requires k < 2
    ensures IsRun(TwiceFed(b), 0, Twice(b), 1, 1, Repetition(1), [[b]])
    ensures Returned(TwiceFed(b), Twice(b), Repetition(1), k) == [b]
  {
    hide Mds, Returned, Completes, RoundStart, IsRun, Kept, Absent, TwiceFed, PadAll;
    var hist := Twice(b);
    TwiceIsRun(b);
    RepetitionIsMds(1);
    OneShardRound(hist, k);
    GroupRecovers(TwiceFed(b), 0, hist, 1, 1, Repetition(1), [[b]], k, k);
    assert Ids(hist[k..k + 1], 0) == {1} by { assert hist[k..k + 1] == [hist[k]]; }
    CopyIsAbsent(b);
  }

  lemma OneShardRound(hist: seq<Arrival>, k: nat)
    requires k < |hist| && forall i :: 0 <= i < |hist| ==> hist[i].g == 0
    ensures RoundStart(hist, 0, 1, k) && Completes(hist, 0, 1, k, k) && Ids(hist[k..k], 0) == {}
    decreases k
  {
    if k > 0 { OneShardRound(hist, k - 1); }
  }

  // ------------------------------------------------ dropped across the wrap of the ids

  const LAST: nat := 0x5555_5555

  /** With two data shards and one parity shard there are LAST groups before the ids
      start again.  The newest group moves up to the last but two, and on to the first
      one behind the wrap; then the second shard of the last but two arrives. */
  ghost function AcrossWrap(): seq<Arrival> {
    [DataOf(700000000, 0), DataOf(1400000000, 0), DataOf(LAST - 3, 0), DataOf(LAST, 0), DataOf(LAST - 3, 1)]
  }

  ghost function DataOf(g: nat, i: nat): Arrival
    requires i < 2
  {
    Arrival(g, Pkt((g % LAST) * 3 + i, TYPE_DATA, []))
  }

  lemma LastGroup()
    ensures Groups(3) == LAST && Paws(3) == 0xffff_ffff
  {
  }

  lemma DataOfIsGenuine(c: Codec, g: nat, i: nat, groups: seq<seq<Shard>>)
    requires i < 2 && g < |groups| && groups[g] == [[], []]
    ensures GenuineArrival(c, 2, 3, groups, DataOf(g, i))
  {
    LastGroup();
  }

  ghost function WrapFed(c: Codec): seq<Dec> {
    var d0 := Dec(2, 1, map[], 0);
    var d1 := Fed(d0, AcrossWrap()[0].x, c);
    var d2 := Fed(d1, AcrossWrap()[1].x, c);
    var d3 := Fed(d2, AcrossWrap()[2].x, c);
    var d4 := Fed(d3, AcrossWrap()[3].x, c);
    [d0, d1, d2, d3, d4, Fed(d4, AcrossWrap()[4].x, c)]
  }

  ghost function WrapGroups(): seq<seq<Shard>> { seq(LAST + 1, _ => [[], []]) }

  lemma WrapNewest(k: nat)
    requires k <= 5
    ensures Newest(0, AcrossWrap()[..k]) == [0, 700000000, 1400000000, LAST - 3, LAST, LAST][k]
  {
    if k > 0 {
      WrapNewest(k - 1);
      assert AcrossWrap()[..k][..k - 1] == AcrossWrap()[..k - 1];
    }
  }

  lemma WrapIsClose(k: nat)
    requires k < 5
    ensures Close(AcrossWrap()[k].g, Newest(0, AcrossWrap()[..k]), 3)
  {
    hide Newest;
    LastGroup();
    WrapNewest(k);
  }

  lemma WrapIsGenuine(c: Codec, k: nat)
    requires k < 5
    ensures GenuineArrival(c, 2, 3, WrapGroups(), AcrossWrap()[k])
  {
    hide WrapGroups, GenuineArrival;
    WrapGroup(AcrossWrap()[k].g);
    DataOfIsGenuine(c, AcrossWrap()[k].g, if k == 4 then 1 else 0, WrapGroups());
  }

  lemma WrapIsRun(c: Codec)
    ensures IsRun(WrapFed(c), 0, AcrossWrap(), 2, 1, c, WrapGroups())
  {
    hide Fed, WrapGroups, Newest, Close, GenuineArrival, DataOf;
    var hist := AcrossWrap();
    forall k: nat | k < 5 ensures Close(hist[k].g, Newest(0, hist[..k]), 3) && GenuineArrival(c, 2, 3, WrapGroups(), hist[k]) {
      WrapIsClose(k);
      WrapIsGenuine(c, k);
    }
  }

  lemma WrapGroup(g: nat)
    requires g <= LAST
    ensures g < |WrapGroups()| && WrapGroups()[g] == [[], []]
  {
  }

  /** A group three back is dropped when the ids have started again in between: its
      second data shard finds nothing, although two distinct shards have arrived. */
  lemma DroppedAcrossWrap(c: Codec)
    ensures var hist := AcrossWrap();
            && IsRun(WrapFed(c), 0, hist, 2, 1, c, WrapGroups())
            && hist[2].g == hist[4].g == hist[3].g - 3 && hist[2].x.seqid != hist[4].x.seqid
            && !Kept(Newest(0, hist[..4]), hist[4].g, 3)
            && hist[4].x.seqid / 3 !in WrapFed(c)[4].sets && Returned(WrapFed(c), hist, c, 4) == []
  {
    hide IsRun, Newest, Matches, Alone, Close, Collect, Kept;
    var hist, dec := AcrossWrap(), WrapFed(c)[4];
    WrapIsRun(c);
    LastGroup();
    WrapNewest(4);
    RetentionRule(LAST, LAST - 3, 3);
    assert Close(hist[4].g, Newest(0, hist[..4]), 3) && |hist| == 5 && |WrapFed(c)| == 6 by { WrapIsClose(4); }
    RunsMatch(WrapFed(c), 0, hist, 2, 1, c, WrapGroups(), 4);
    StoredForArrival(dec, 0, hist[..4], LAST - 3);
    CollectIs(dec, hist[4].x, c);
  }
}
