/** Forward error correction over whole runs: every group recovers on its own,
    whatever the other groups, duplicates and the order of arrival do. */
module FecRuns {
  import opened Facts
  import opened Options
  import opened Serial
  import opened FecCode
  import opened FecDecoder

  // ------------------------------------------------- unbounded group numbers

  /** Where group g begins, if the 32-bit ids went on without end: each turn of the
      ids takes the whole range, although the ids stop short of it. */
  function Pos(g: nat, n: nat): int
    requires 0 < n <= MAX_SHARDS
  {
    PawsGap(n);
    (g % Groups(n)) * n + g / Groups(n) * RANGE
  }

  function IdOf(g: nat, n: nat): u32
    requires 0 < n <= MAX_SHARDS
  {
    PawsGap(n);
    g % Groups(n)
  }

  lemma WTurns(a: int, k: int)
    ensures W(a + k * RANGE) == W(a)
  {
  }

  lemma PosIsFirst(g: nat, n: nat)
    requires 0 < n <= MAX_SHARDS
    ensures W(Pos(g, n)) == First(IdOf(g, n), n)
  {
    PawsGap(n);
    WTurns(IdOf(g, n) * n, g / Groups(n));
  }

  /** Two groups with the same id are a whole turn apart. */
  lemma SameIdFar(g: nat, h: nat, n: nat)
    requires 0 < n <= MAX_SHARDS && g < h && IdOf(g, n) == IdOf(h, n)
    ensures Pos(h, n) - Pos(g, n) >= RANGE
  {
    PawsGap(n);
    var m := Groups(n);
    var a, b := g / m, h / m;
    assert g == a * m + g % m && h == b * m + h % m;
    if b <= a { MulLe(b, a, m); }
    MulLe(1, b - a, RANGE);
    assert (b - a) * RANGE == b * RANGE - a * RANGE;
  }

  lemma Rearrange(x: int, a: int, m: int, n: int, r: int)
    ensures x * n + a * (m * n + r) == (a * m + x) * n + a * r
  {
    assert (a * m) * n == a * (m * n);
    assert (a * m + x) * n == (a * m) * n + x * n;
    assert a * (m * n + r) == a * (m * n) + a * r;
  }

  /** Positions grow by n for each group, and by the gap for each new turn. */
  lemma PosValue(g: nat, n: nat)
    requires 0 < n <= MAX_SHARDS
    ensures Pos(g, n) == g * n + g / Groups(n) * (RANGE - Paws(n))
  {
    PawsGap(n);
    var m := Groups(n);
    Rearrange(g % m, g / m, m, n, RANGE - m * n);
    assert g / m * m + g % m == g;
  }

  lemma Turns(a: int, x: int, b: int, y: int, m: int)
    requires 0 <= x < m && 0 <= y < m && a * m + x <= b * m + y
    ensures a <= b
    ensures b >= a + 2 ==> b * m + y - (a * m + x) > m
  {
    MulAdd(b, 1, m);
    MulAdd(a, 2, m);
    if b < a { MulLe(b + 1, a, m); } else if b >= a + 2 { MulLe(a + 2, b, m); }
  }

  lemma TurnsGrow(g: nat, h: nat, m: nat)
    requires 0 < m && g <= h
    ensures g / m <= h / m
    ensures h / m >= g / m + 2 ==> h - g > m
  {
    Turns(g / m, g % m, h / m, h % m, m);
  }

  lemma PosGap(g: nat, h: nat, n: nat)
    requires 0 < n <= MAX_SHARDS && g <= h
    ensures Pos(h, n) - Pos(g, n) == (h - g) * n + (h / Groups(n) - g / Groups(n)) * (RANGE - Paws(n))
    ensures Pos(h, n) - Pos(g, n) >= (h - g) * n
  {
    PawsGap(n);
    var m, r := Groups(n), RANGE - Paws(n);
    PosValue(g, n);
    PosValue(h, n);
    TurnsGrow(g, h, m);
    assert (h - g) * n == h * n - g * n;
    assert (h / m - g / m) * r == h / m * r - g / m * r;
    MulLe(0, h / m - g / m, r);
  }

  lemma PosOrder(g: nat, h: nat, n: nat)
    requires 0 < n <= MAX_SHARDS && g < h
    ensures Pos(g, n) < Pos(h, n)
  {
    PosGap(g, h, n);
    MulLe(1, h - g, n);
  }

  /** Group g is kept while h is the newest. */
  ghost predicate Kept(h: nat, g: nat, n: nat)
    requires 0 < n <= MAX_SHARDS
  {
    g <= h && Pos(h, n) - Pos(g, n) <= MAX_SETS * n
  }

  /** Exactly the newest group and the three before it are kept; but only the two
      before it when the ids have started again in between. */
  lemma RetentionRule(h: nat, g: nat, n: nat)
    requires 0 < n <= MAX_SHARDS && g <= h
    ensures Kept(h, g, n) <==> h - g <= if h / Groups(n) == g / Groups(n) then 3 else 2
  {
    PawsGap(n);
    var m, r := Groups(n), RANGE - Paws(n);
    var k, t := h - g, h / m - g / m;
    PosGap(g, h, n);
    TurnsGrow(g, h, m);
    if k <= 2 { MulLe(k, 2, n); } else if k >= 4 { MulLe(4, k, n); }
    if t >= 1 { MulLe(1, t, r); }
  }

  // ------------------------------------------------------------- what arrives

  /** A packet and the unbounded number of the group it is from. */
  datatype Arrival = Arrival(g: nat, x: Pkt)

  /** Everything arrived so far, oldest first: the newest group in it, when h0 was the
      newest before. */
  function Newest(h0: nat, hist: seq<Arrival>): (h: nat)
    ensures h0 <= h && forall i :: 0 <= i < |hist| ==> hist[i].g <= h
  {
    if hist == [] then h0
    else
      var h := Newest(h0, hist[..|hist|-1]);
      var last := hist[|hist|-1].g;
      assert forall i :: 0 <= i < |hist| - 1 ==> hist[i] == hist[..|hist|-1][i];
      if last > h then last else h
  }

  /** What one group would do by itself: collect distinct shards, and start again
      when there are d of them. */
  function Alone(hist: seq<Arrival>, g: nat, d: nat): seq<Pkt> {
    if hist == [] then []
    else
      var a, last := Alone(hist[..|hist|-1], g, d), hist[|hist|-1];
      if last.g != g || Has(a, last.x.seqid) then a
      else if |a| + 1 < d then a + [last.x]
      else []
  }

  lemma {:induction false} AloneUnseen(h0: nat, hist: seq<Arrival>, g: nat, d: nat)
    requires g > Newest(h0, hist)
    ensures Alone(hist, g, d) == []
  {
    if hist != [] { AloneUnseen(h0, hist[..|hist|-1], g, d); }
  }

  // ----------------------------------------------------- the decoder against it

  /** The decoder holds, of the kept groups, what each would hold alone, and
      nothing else. */
  ghost predicate Matches(dec: Dec, h0: nat, hist: seq<Arrival>)
    requires Sane(dec)
  {
    var n, h := Size(dec), Newest(h0, hist);
    && dec.newest == IdOf(h, n)
    && (forall id :: id in dec.sets ==> KeptId(id, h, n))
    && (forall g :: Kept(h, g, n) ==> Stored(dec.sets, IdOf(g, n)) == Alone(hist, g, dec.d))
  }

  ghost predicate KeptId(id: u32, h: nat, n: nat)
    requires 0 < n <= MAX_SHARDS
  {
    exists g :: Kept(h, g, n) && id == IdOf(g, n)
  }

  /** The group is less than half the range, minus four intervals, from the newest. */
  ghost predicate Close(g: nat, h: nat, n: nat)
    requires 0 < n <= MAX_SHARDS
  {
    -(HALF - 4 * n) < Pos(g, n) - Pos(h, n) < HALF - 4 * n
  }

  lemma CompareIds(g: nat, h: nat, n: nat)
    requires 0 < n <= MAX_SHARDS && -HALF < Pos(g, n) - Pos(h, n) < HALF
    ensures Diff(First(IdOf(g, n), n), First(IdOf(h, n), n)) == Pos(g, n) - Pos(h, n)
  {
    PosIsFirst(g, n);
    PosIsFirst(h, n);
    DiffIsUnboundedDifference(Pos(g, n), Pos(h, n));
  }

  /** Close groups are told apart by their ids. */
  lemma IdsApart(g: nat, h: nat, n: nat)
    requires 0 < n <= MAX_SHARDS && -RANGE < Pos(g, n) - Pos(h, n) < RANGE
    ensures IdOf(g, n) == IdOf(h, n) <==> g == h
  {
    if IdOf(g, n) == IdOf(h, n) && g < h { SameIdFar(g, h, n); }
    if IdOf(g, n) == IdOf(h, n) && g > h { SameIdFar(h, g, n); }
  }

  lemma NewestMoves(g: nat, h: nat, n: nat)
    requires 0 < n <= MAX_SHARDS && Close(g, h, n)
    ensures Newer(IdOf(h, n), IdOf(g, n), n) == IdOf(if g > h then g else h, n)
  {
    CompareIds(g, h, n);
    if g > h { PosOrder(h, g, n); } else if g < h { PosOrder(g, h, n); }
  }

  /** A close group is discarded exactly when it is not kept. */
  lemma OldIsNotKept(h: nat, g: nat, n: nat)
    requires 0 < n <= MAX_SHARDS && g <= h && Pos(h, n) - Pos(g, n) < HALF
    ensures TooOld(IdOf(h, n), IdOf(g, n), n) <==> !Kept(h, g, n)
  {
    if g < h { PosOrder(g, h, n); }
    CompareIds(h, g, n);
  }

  /** What is stored under the id of the arriving group. */
  lemma StoredForArrival(dec: Dec, h0: nat, hist: seq<Arrival>, g: nat)
    requires Sane(dec) && Matches(dec, h0, hist) && Close(g, Newest(h0, hist), Size(dec))
    ensures Kept(Newest(h0, hist), g, Size(dec)) || IdOf(g, Size(dec)) !in dec.sets
    ensures g >= Newest(h0, hist) || Kept(Newest(h0, hist), g, Size(dec)) ==>
              Stored(dec.sets, IdOf(g, Size(dec))) == Alone(hist, g, dec.d)
  {
    var n, h := Size(dec), Newest(h0, hist);
    if IdOf(g, n) in dec.sets {
      var k :| Kept(h, k, n) && IdOf(g, n) == IdOf(k, n);
      if k < h { PosOrder(k, h, n); }
      IdsApart(g, k, n);
    }
    if g > h { AloneUnseen(h0, hist, g, dec.d); }
  }

  // -------------------------------------------------------------- one arrival

  /** The arrival is a genuine packet of its group, close to the newest. */
  ghost predicate Arrives(dec: Dec, h0: nat, hist: seq<Arrival>, a: Arrival)
    requires Sane(dec)
  {
    a.x.seqid / Size(dec) == IdOf(a.g, Size(dec)) && Close(a.g, Newest(h0, hist), Size(dec))
  }

  lemma NewestNext(h0: nat, hist: seq<Arrival>, a: Arrival)
    ensures Newest(h0, hist + [a]) == if a.g > Newest(h0, hist) then a.g else Newest(h0, hist)
  {
    assert (hist + [a])[..|hist|] == hist;
  }

  lemma AloneNext(hist: seq<Arrival>, a: Arrival, g: nat, d: nat)
    ensures Alone(hist + [a], g, d) == if a.g == g then After(Alone(hist, g, d), a.x, d) else Alone(hist, g, d)
  {
    assert (hist + [a])[..|hist|] == hist;
  }

  /** Groups kept after the arrival were kept before it, or not seen before. */
  lemma KeptBefore(h: nat, h': nat, g: nat, n: nat)
    requires 0 < n <= MAX_SHARDS && h <= h' && Kept(h', g, n)
    ensures g <= h ==> Kept(h, g, n)
  {
    if h < h' { PosOrder(h, h', n); }
  }

  /** Only the arriving group's entry changes, and old ones are dropped. */
  lemma StoredAfter(sets: map<u32, seq<Pkt>>, id: u32, v: seq<Pkt>, newest: u32, n: nat, e: u32)
    ensures var sets' := Discard(sets[id := v], newest, n);
            Stored(sets', e) == if TooOld(newest, e, n) then [] else if e == id then v else Stored(sets, e)
  {
  }

  lemma {:induction false} ArrivalStored(dec: Dec, h0: nat, hist: seq<Arrival>, a: Arrival, c: Codec, g: nat)
    requires Sane(dec) && Matches(dec, h0, hist) && Arrives(dec, h0, hist, a) && Kept(Newest(h0, hist + [a]), g, Size(dec))
    ensures Stored(Collect(dec, a.x, c).dec.sets, IdOf(g, Size(dec))) == Alone(hist + [a], g, dec.d)
  {
    hide Pos, First, Diff, Recover, Matches, IdOf;
    var n, h, h' := Size(dec), Newest(h0, hist), Newest(h0, hist + [a]);
    var id := a.x.seqid / n;
    NewestNext(h0, hist, a);
    AloneNext(hist, a, g, dec.d);
    KeptBefore(h, h', g, n);
    StoredForArrival(dec, h0, hist, a.g);
    CollectIs(dec, a.x, c);
    assert dec.newest == IdOf(h, n) by { MatchesNewest(dec, h0, hist); }
    NewestMoves(a.g, h, n);
    KeptIsClose(h', g, n);
    OldIsNotKept(h', g, n);
    ClosePair(h, h', a.g, g, n);
    IdsApart(a.g, g, n);
    StoredAfter(dec.sets, id, After(Stored(dec.sets, id), a.x, dec.d), Newer(dec.newest, id, n), n, IdOf(g, n));
    if g != a.g { StoredElsewhere(dec, h0, hist, g, h, h'); }
  }

  lemma MatchesNewest(dec: Dec, h0: nat, hist: seq<Arrival>)
    requires Sane(dec) && Matches(dec, h0, hist)
    ensures dec.newest == IdOf(Newest(h0, hist), Size(dec))
  {
  }

  lemma KeptIsClose(h: nat, g: nat, n: nat)
    requires 0 < n <= MAX_SHARDS && Kept(h, g, n)
    ensures 0 <= Pos(h, n) - Pos(g, n) <= 3 * n < HALF
  {
    if g < h { PosOrder(g, h, n); }
  }

  /** The arriving group and any kept one are less than a turn apart. */
  lemma ClosePair(h: nat, h': nat, a: nat, g: nat, n: nat)
    requires 0 < n <= MAX_SHARDS && Close(a, h, n) && h' == (if a > h then a else h) && Kept(h', g, n)
    ensures -RANGE < Pos(a, n) - Pos(g, n) < RANGE
  {
    KeptIsClose(h', g, n);
  }

  /** A kept group other than the arriving one is as it was. */
  lemma StoredElsewhere(dec: Dec, h0: nat, hist: seq<Arrival>, g: nat, h: nat, h': nat)
    requires Sane(dec) && Matches(dec, h0, hist) && h == Newest(h0, hist) && h <= h' && Kept(h', g, Size(dec))
    requires Pos(h', Size(dec)) - Pos(h, Size(dec)) < HALF - 4 * Size(dec)
    ensures Stored(dec.sets, IdOf(g, Size(dec))) == Alone(hist, g, dec.d)
  {
    var n := Size(dec);
    KeptBefore(h, h', g, n);
    if g > h {
      KeptIsClose(h', g, n);
      if h < g { PosOrder(h, g, n); }
      StoredForArrival(dec, h0, hist, g);
    }
  }

  lemma ArrivalKeys(dec: Dec, h0: nat, hist: seq<Arrival>, a: Arrival, c: Codec, e: u32)
    requires Sane(dec) && Matches(dec, h0, hist) && Arrives(dec, h0, hist, a) && e in Collect(dec, a.x, c).dec.sets
    ensures KeptId(e, Newest(h0, hist + [a]), Size(dec))
  {
    hide Pos, First, Diff, Recover, IdOf;
    var n, h, h' := Size(dec), Newest(h0, hist), Newest(h0, hist + [a]);
    var id := a.x.seqid / n;
    NewestNext(h0, hist, a);
    CollectIs(dec, a.x, c);
    StoredForArrival(dec, h0, hist, a.g);
    NewestMoves(a.g, h, n);
    if Has(Stored(dec.sets, id), a.x.seqid) {
      assert KeptId(e, h, n);
    } else if e == id {
      if a.g < h' { PosOrder(a.g, h', n); }
      OldIsNotKept(h', a.g, n);
    } else {
      assert KeptId(e, h, n);
      var g :| Kept(h, g, n) && e == IdOf(g, n);
      KeptIsClose(h, g, n);
      OldIsNotKept(h', g, n);
    }
  }

  lemma ArrivalMatches(dec: Dec, h0: nat, hist: seq<Arrival>, a: Arrival, c: Codec)
    requires Sane(dec) && Matches(dec, h0, hist) && Arrives(dec, h0, hist, a)
    ensures Sane(Collect(dec, a.x, c).dec) && Matches(Collect(dec, a.x, c).dec, h0, hist + [a])
  {
    hide Pos, First, Diff, Recover, Kept, KeptId, IdOf;
    var n, h, dec' := Size(dec), Newest(h0, hist), Collect(dec, a.x, c).dec;
    NewestNext(h0, hist, a);
    NewestMoves(a.g, h, n);
    CollectIs(dec, a.x, c);
    if Has(Stored(dec.sets, a.x.seqid / n), a.x.seqid) {
      StoredForArrival(dec, h0, hist, a.g);
      KeptNotNewer(h, a.g, n);
    }
    forall e | e in dec'.sets ensures KeptId(e, Newest(h0, hist + [a]), n) { ArrivalKeys(dec, h0, hist, a, c, e); }
    forall g | Kept(Newest(h0, hist + [a]), g, n) ensures Stored(dec'.sets, IdOf(g, n)) == Alone(hist + [a], g, dec.d) {
      ArrivalStored(dec, h0, hist, a, c, g);
    }
  }

  lemma KeptNotNewer(h: nat, g: nat, n: nat)
    requires 0 < n <= MAX_SHARDS
    ensures Kept(h, g, n) ==> g <= h
  {
  }

  // ------------------------------------------------------------- genuine packets

  /** Every arrival is a shard of its group; `groups` holds the groups' bodies. */
  ghost predicate GenuineArrival(c: Codec, d: nat, n: nat, groups: seq<seq<Shard>>, a: Arrival)
    requires 0 < n <= MAX_SHARDS
  {
    a.g < |groups| && |groups[a.g]| == d && a.x.seqid / n == IdOf(a.g, n) && Genuine(c, d, n, groups[a.g], a.x)
  }

  ghost predicate AllGenuine(c: Codec, d: nat, n: nat, groups: seq<seq<Shard>>, hist: seq<Arrival>)
    requires 0 < n <= MAX_SHARDS
  {
    forall i :: 0 <= i < |hist| ==> GenuineArrival(c, d, n, groups, hist[i])
  }

  lemma ExtendGroup(c: Codec, d: nat, n: nat, bodies: seq<Shard>, pkts: seq<Pkt>, x: Pkt, id: u32)
    requires 0 < n && |bodies| == d && FromGroup(c, d, n, bodies, pkts) && Genuine(c, d, n, bodies, x) && !Has(pkts, x.seqid)
    requires (forall i :: 0 <= i < |pkts| ==> pkts[i].seqid / n == id) && x.seqid / n == id
    ensures FromGroup(c, d, n, bodies, pkts + [x])
  {
    forall i | 0 <= i < |pkts| ensures pkts[i].seqid % n != x.seqid % n { SameGroupApart(pkts[i].seqid, x.seqid, n); }
  }

  ghost predicate GroupSet(c: Codec, d: nat, n: nat, groups: seq<seq<Shard>>, g: nat, pkts: seq<Pkt>)
    requires 0 < n <= MAX_SHARDS
  {
    && g < |groups| && |groups[g]| == d && FromGroup(c, d, n, groups[g], pkts)
    && forall i :: 0 <= i < |pkts| ==> pkts[i].seqid / n == IdOf(g, n)
  }

  lemma {:induction false} AloneIsGroup(c: Codec, d: nat, n: nat, groups: seq<seq<Shard>>, hist: seq<Arrival>, g: nat)
    requires 0 < n <= MAX_SHARDS && AllGenuine(c, d, n, groups, hist) && g < |groups| && |groups[g]| == d
    ensures GroupSet(c, d, n, groups, g, Alone(hist, g, d))
    ensures d > 0 ==> |Alone(hist, g, d)| < d
  {
    hide Genuine, IdOf;
    if hist != [] {
      var init, last := hist[..|hist|-1], hist[|hist|-1];
      AloneIsGroup(c, d, n, groups, init, g);
      var a := Alone(init, g, d);
      if last.g == g && !Has(a, last.x.seqid) { ExtendGroup(c, d, n, groups[g], a, last.x, IdOf(g, n)); }
    }
  }

  // ------------------------------------------------------------------------ runs

  /** A decoder fed with genuine packets, each close to the newest so far.  It starts
      empty: new, with group 0 for the newest, or just retuned, with the group h0 of
      the packet that made it retune. */
  ghost predicate IsRun(decs: seq<Dec>, h0: nat, hist: seq<Arrival>, d: nat, p: nat, c: Codec, groups: seq<seq<Shard>>) {
    && d > 0 && p > 0 && d + p <= 256
    && |decs| == |hist| + 1 && decs[0] == Dec(d, p, map[], IdOf(h0, d + p))
    && AllGenuine(c, d, d + p, groups, hist)
    && forall i :: 0 <= i < |hist| ==> decs[i + 1] == Fed(decs[i], hist[i].x, c) && Close(hist[i].g, Newest(h0, hist[..i]), d + p)
  }

  lemma {:induction false} RunsMatch(decs: seq<Dec>, h0: nat, hist: seq<Arrival>, d: nat, p: nat, c: Codec, groups: seq<seq<Shard>>, k: nat)
    requires IsRun(decs, h0, hist, d, p, c, groups) && k <= |hist|
    ensures decs[k].d == d && decs[k].p == p && Sane(decs[k]) && Matches(decs[k], h0, hist[..k])
  {
    hide IsRun, Matches, Collect, Arrives;
    RunShape(decs, h0, hist, d, p, c, groups);
    if k == 0 {
      EmptyMatches(d, p, h0);
    } else {
      RunsMatch(decs, h0, hist, d, p, c, groups, k - 1);
      assert hist[..k] == hist[..k-1] + [hist[k-1]];
      RunStep(decs, h0, hist, d, p, c, groups, k - 1);
      ArrivalMatches(decs[k-1], h0, hist[..k-1], hist[k-1], c);
      CollectKeepsShape(decs[k-1], hist[k-1].x, c);
    }
  }

  lemma RunShape(decs: seq<Dec>, h0: nat, hist: seq<Arrival>, d: nat, p: nat, c: Codec, groups: seq<seq<Shard>>)
    requires IsRun(decs, h0, hist, d, p, c, groups)
    ensures d > 0 && p > 0 && d + p <= 256 && |decs| == |hist| + 1 && decs[0] == Dec(d, p, map[], IdOf(h0, d + p))
  {
  }

  lemma RunStep(decs: seq<Dec>, h0: nat, hist: seq<Arrival>, d: nat, p: nat, c: Codec, groups: seq<seq<Shard>>, i: nat)
    requires IsRun(decs, h0, hist, d, p, c, groups) && i < |hist| && Sane(decs[i]) && decs[i].d == d && decs[i].p == p
    ensures i + 1 < |decs| && decs[i + 1] == Collect(decs[i], hist[i].x, c).dec && Arrives(decs[i], h0, hist[..i], hist[i])
  {
    hide Collect, Close, Genuine, Newest, IdOf;
    assert GenuineArrival(c, d, d + p, groups, hist[i]);
  }

  lemma EmptyMatches(d: nat, p: nat, h0: nat)
    requires d > 0 && p > 0 && d + p <= 256
    ensures Matches(Dec(d, p, map[], IdOf(h0, d + p)), h0, [])
  {
  }

  /** What the decoder has of an arriving group: genuine shards of that group, and
      while the group is kept all that came since its last recovery. */
  lemma StoredIsGroup(dec: Dec, h0: nat, hist: seq<Arrival>, c: Codec, groups: seq<seq<Shard>>, g: nat)
    requires Sane(dec) && Matches(dec, h0, hist) && Close(g, Newest(h0, hist), Size(dec))
    requires AllGenuine(c, dec.d, Size(dec), groups, hist) && g < |groups| && |groups[g]| == dec.d
    ensures var cur := Stored(dec.sets, IdOf(g, Size(dec)));
            && GroupSet(c, dec.d, Size(dec), groups, g, cur) && |cur| < dec.d
            && (g >= Newest(h0, hist) || Kept(Newest(h0, hist), g, Size(dec)) ==> cur == Alone(hist, g, dec.d))
  {
    hide Matches, Genuine, Pos, IdOf, Kept, Close;
    AloneIsGroup(c, dec.d, Size(dec), groups, hist, g);
    StoredForArrival(dec, h0, hist, g);
  }

  /** The same, before the k-th arrival of a run. */
  lemma StoredInRun(decs: seq<Dec>, h0: nat, hist: seq<Arrival>, d: nat, p: nat, c: Codec, groups: seq<seq<Shard>>, k: nat)
    requires IsRun(decs, h0, hist, d, p, c, groups) && k < |hist|
    ensures Sane(decs[k]) && decs[k].d == d && decs[k].p == p && GenuineArrival(c, d, d + p, groups, hist[k])
    ensures var cur := Stored(decs[k].sets, IdOf(hist[k].g, d + p));
            && GroupSet(c, d, d + p, groups, hist[k].g, cur) && |cur| < d
            && (Kept(Newest(h0, hist[..k + 1]), hist[k].g, d + p) ==> cur == Alone(hist[..k], hist[k].g, d))
  {
    hide Matches, Collect, Genuine, Pos, IdOf, Kept, Close, FromGroup, Sane;
    var g := hist[k].g;
    RunsMatch(decs, h0, hist, d, p, c, groups, k);
    assert GenuineArrival(c, d, d + p, groups, hist[k]);
    StoredIsGroup(decs[k], h0, hist[..k], c, groups, g);
    assert hist[..k + 1] == hist[..k] + [hist[k]];
    NewestNext(h0, hist[..k], hist[k]);
  }

  /** What the k-th arrival makes the decoder return. */
  ghost function Returned(decs: seq<Dec>, hist: seq<Arrival>, c: Codec, k: nat): seq<Shard>
    requires k < |hist| && k < |decs|
  {
    if Sane(decs[k]) then Collect(decs[k], hist[k].x, c).recovered else []
  }

  /** While its group is kept, an arrival makes the decoder return what it completes
      of the group, as the group alone would. */
  lemma RecoversAsAlone(decs: seq<Dec>, h0: nat, hist: seq<Arrival>, d: nat, p: nat, c: Codec, groups: seq<seq<Shard>>, k: nat)
    requires IsRun(decs, h0, hist, d, p, c, groups) && Mds(c, d, p) && k < |hist|
    requires Kept(Newest(h0, hist[..k + 1]), hist[k].g, d + p)
    ensures hist[k].g < |groups| && |groups[hist[k].g]| == d
    ensures var cur, x, bodies := Alone(hist[..k], hist[k].g, d), hist[k].x, groups[hist[k].g];
            Returned(decs, hist, c, k) ==
              if !Has(cur, x.seqid) && |cur| + 1 == d
              then Missing(Slots(cur + [x], d + p), PadAll(bodies, MaxLen(bodies)), d) else []
  {
    hide Matches, Collect, Genuine, Pos, IdOf, Mds, Recover, Kept, Close, FromGroup, Alone, Missing, Slots, PadAll, MaxLen, Has;
    var cur, x, g := Alone(hist[..k], hist[k].g, d), hist[k].x, hist[k].g;
    StoredInRun(decs, h0, hist, d, p, c, groups, k);
    CollectIs(decs[k], x, c);
    if !Has(cur, x.seqid) && |cur| + 1 == d {
      ExtendGroup(c, d, d + p, groups[g], cur, x, IdOf(g, d + p));
      RecoverExact(c, d, p, groups[g], cur + [x]);
    }
  }

  /** Whatever is returned, at any time and for any group, kept or not, triggered
      once or again, is original data: the payload behind a data shard of the
      arriving group. */
  lemma ReturnsOriginals(decs: seq<Dec>, h0: nat, hist: seq<Arrival>, d: nat, p: nat, c: Codec, groups: seq<seq<Shard>>, k: nat, j: nat)
      returns (i: nat)
    requires IsRun(decs, h0, hist, d, p, c, groups) && Mds(c, d, p) && k < |hist| && j < |Returned(decs, hist, c, k)|
    ensures hist[k].g < |groups| && i < |groups[hist[k].g]|
    ensures var bodies := groups[hist[k].g]; Returned(decs, hist, c, k)[j] == Pad(bodies[i], MaxLen(bodies))
  {
    hide Matches, Collect, Genuine, Pos, IdOf, Mds, Recover, Kept, Close, FromGroup;
    var x, g, n := hist[k].x, hist[k].g, d + p;
    var cur := Stored(decs[k].sets, IdOf(g, n));
    StoredInRun(decs, h0, hist, d, p, c, groups, k);
    CollectIs(decs[k], x, c);
    ExtendGroup(c, d, n, groups[g], cur, x, IdOf(g, n));
    RecoverExact(c, d, p, groups[g], cur + [x]);
    i := MissingAre(Slots(cur + [x], n), groups[g], MaxLen(groups[g]), d, j);
  }

  /** And the receiver gets the packet itself: the size field cuts the padding. */
  lemma RecoveredPayload(bodies: seq<Shard>, i: nat, payload: seq<byte>)
    requires i < |bodies| && |payload| + 2 < 0x1_0000 && bodies[i] == Body(payload)
    ensures Payload(Pad(bodies[i], MaxLen(bodies))) == Some(payload)
  {
    PayloadRoundTrip(payload, MaxLen(bodies));
  }
}
