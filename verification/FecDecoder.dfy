/** The decoder's sets of shards: what it keeps, and how much. */
module FecDecoder {
  import opened Facts
  import opened Serial
  import opened FecCode

  const MAX_SETS: int := 3

  /** No codec exists for more shards than this; a decoder takes at most 256. */
  const MAX_SHARDS: int := 65536

  /** How many groups there are before the sequence ids start again. */
  function Groups(n: nat): u32
    requires 0 < n <= MAX_SHARDS
  {
    0xffff_ffff / n
  }

  /** Ids at or beyond this are never used. */
  function Paws(n: nat): u32
    requires 0 < n <= MAX_SHARDS
  {
    Groups(n) * n
  }

  /** The decoder: its parameters, the packets of each group, the newest group. */
  datatype Dec = Dec(d: nat, p: nat, sets: map<u32, seq<Pkt>>, newest: u32)

  function Size(dec: Dec): nat { dec.d + dec.p }

  ghost predicate Sane(dec: Dec) { dec.d > 0 && dec.p > 0 && Size(dec) <= 256 }

  /** The first id of a group, as 32-bit arithmetic computes it. */
  function First(id: u32, n: nat): u32 { W(id * n) }

  predicate Has(pkts: seq<Pkt>, seqid: u32) { exists i :: 0 <= i < |pkts| && pkts[i].seqid == seqid }

  function Stored(sets: map<u32, seq<Pkt>>, id: u32): seq<Pkt> { if id in sets then sets[id] else [] }

  predicate TooOld(newest: u32, id: u32, n: nat) { Diff(First(newest, n), First(id, n)) > MAX_SETS * n }

  function Discard(sets: map<u32, seq<Pkt>>, newest: u32, n: nat): map<u32, seq<Pkt>> {
    map id | id in sets && !TooOld(newest, id, n) :: sets[id]
  }

  function Newer(newest: u32, id: u32, n: nat): u32 {
    if Diff(First(id, n), First(newest, n)) > 0 then id else newest
  }

  datatype Outcome = Outcome(dec: Dec, recovered: seq<Shard>)

  /** decode, for a packet of the expected type. */
  ghost function Collect(dec: Dec, x: Pkt, c: Codec): Outcome
    requires Sane(dec)
  {
    var n := Size(dec);
    var id := x.seqid / n;
    var cur := Stored(dec.sets, id);
    if Has(cur, x.seqid) then Outcome(dec, [])
    else
      var newest := Newer(dec.newest, id, n);
      if |cur| + 1 < dec.d then Outcome(dec.(newest := newest, sets := Discard(dec.sets[id := cur + [x]], newest, n)), [])
      else Outcome(dec.(newest := newest, sets := Discard(dec.sets[id := []], newest, n)), Recover(c, dec.d, n, cur + [x]))
  }

  /** What the packet's set holds afterwards. */
  ghost function After(cur: seq<Pkt>, x: Pkt, d: nat): seq<Pkt> {
    if Has(cur, x.seqid) then cur else if |cur| + 1 < d then cur + [x] else []
  }

  /** Distinct ids of one group have distinct positions. */
  lemma SameGroupApart(x: u32, y: u32, n: nat)
    requires 0 < n && x / n == y / n && x != y
    ensures x % n != y % n
  {
    assert x == x / n * n + x % n && y == y / n * n + y % n;
  }

  lemma CollectIs(dec: Dec, x: Pkt, c: Codec)
    requires Sane(dec)
    ensures var n := Size(dec);
            var id := x.seqid / n;
            var cur := Stored(dec.sets, id);
            var newest := Newer(dec.newest, id, n);
            var o := Collect(dec, x, c);
            && (Has(cur, x.seqid) ==> o == Outcome(dec, []))
            && (!Has(cur, x.seqid) ==>
                  && o.dec == dec.(newest := newest, sets := Discard(dec.sets[id := After(cur, x, dec.d)], newest, n))
                  && o.recovered == if |cur| + 1 < dec.d then [] else Recover(c, dec.d, n, cur + [x]))
  {
  }

  lemma CollectKeepsShape(dec: Dec, x: Pkt, c: Codec)
    requires Sane(dec)
    ensures Collect(dec, x, c).dec.d == dec.d && Collect(dec, x, c).dec.p == dec.p
  {
  }

  // ------------------------------------------------- what holds for any packets

  /** A set holds fewer packets than it takes to recover, of its own group, no id
      twice. */
  ghost predicate SetOk(id: u32, pkts: seq<Pkt>, d: nat, n: nat)
    requires n > 0
  {
    && |pkts| < d
    && (forall i :: 0 <= i < |pkts| ==> pkts[i].seqid / n == id)
    && (forall i, j :: 0 <= i < j < |pkts| ==> pkts[i].seqid != pkts[j].seqid)
  }

  ghost predicate SetsOk(dec: Dec)
    requires Sane(dec)
  {
    forall id :: id in dec.sets ==> SetOk(id, dec.sets[id], dec.d, Size(dec))
  }

  /** Whatever packets arrive, no set ever holds dataShards packets between calls,
      and no id twice. */
  lemma CollectKeepsSets(dec: Dec, x: Pkt, c: Codec)
    requires Sane(dec) && SetsOk(dec)
    ensures SetsOk(Collect(dec, x, c).dec) && Sane(Collect(dec, x, c).dec)
  {
    var n := Size(dec);
    var id := x.seqid / n;
    var cur := Stored(dec.sets, id);
    assert SetOk(id, cur, dec.d, n);
  }

  // -------------------------------------------------- packets near the newest set

  ghost predicate Near(dec: Dec, x: Pkt)
    requires Sane(dec)
  {
    var n := Size(dec);
    -(HALF - 4 * n) < Diff(First(x.seqid / n, n), First(dec.newest, n)) < HALF - 4 * n
  }

  /** Every set is the newest or at most three intervals behind it. */
  ghost predicate Recent(dec: Dec)
    requires Sane(dec)
  {
    forall id :: id in dec.sets ==> 0 <= Diff(First(dec.newest, Size(dec)), First(id, Size(dec))) <= MAX_SETS * Size(dec)
  }

  lemma DiffChain(a: u32, b: u32, c: u32)
    requires 0 <= Diff(b, a) && 0 <= Diff(c, b) && Diff(b, a) + Diff(c, b) < HALF
    ensures Diff(c, a) == Diff(b, a) + Diff(c, b)
  {
  }

  lemma SelfDiff(a: u32)
    ensures Diff(a, a) == 0
  {
  }

  lemma DiffBack(a: u32, b: u32)
    requires Diff(b, a) != -HALF
    ensures Diff(a, b) == -Diff(b, a)
  {
  }

  lemma CollectKeepsRecent(dec: Dec, x: Pkt, c: Codec)
    requires Sane(dec) && Recent(dec) && Near(dec, x)
    ensures Recent(Collect(dec, x, c).dec)
  {
    hide First, Recover, Has, Diff;
    hide Collect, After;
    var n := Size(dec);
    var id := x.seqid / n;
    var newest := Newer(dec.newest, id, n);
    var dec' := Collect(dec, x, c).dec;
    CollectIs(dec, x, c);
    DiffBack(First(dec.newest, n), First(id, n));
    forall e | e in dec'.sets ensures 0 <= Diff(First(dec'.newest, n), First(e, n)) <= MAX_SETS * n {
      if e == id { SelfDiff(First(id, n)); }
      if e in dec.sets && newest != dec.newest { DiffChain(First(e, n), First(dec.newest, n), First(id, n)); }
    }
  }

  // ------------------------------------------------------------ at most four sets

  /** The ids end between 1 and n short of the range. */
  lemma PawsGap(n: nat)
    requires 0 < n <= MAX_SHARDS
    ensures 1 <= RANGE - Paws(n) <= n && Groups(n) > 3
  {
    var m := Groups(n);
    assert m * n <= 0xffff_ffff < m * n + n;
    if m <= 3 { MulLe(m, 3, n); }
  }

  function Back(newest: u32, j: nat, m: u32): int { if newest >= j then newest - j else newest - j + m }

  lemma FirstExact(id: u32, n: nat)
    requires 0 < n <= MAX_SHARDS && id <= Groups(n)
    ensures First(id, n) == id * n <= Paws(n)
    ensures id < Groups(n) ==> id * n <= Paws(n) - n
  {
    MulLe(id, Groups(n), n);
    if id < Groups(n) { MulLe(id, Groups(n) - 1, n); }
    MulLe(0, id, n);
    assert (Groups(n) - 1) * n == Groups(n) * n - n;
    Unwrapped(id * n);
  }

  /** A set within three intervals is one of the four last groups, also across the
      point where the ids start again. */
  lemma RecentIsOneOfFour(newest: u32, id: u32, n: nat)
    requires 0 < n <= MAX_SHARDS && newest <= Groups(n) && id < Groups(n)
    requires 0 <= Diff(First(newest, n), First(id, n)) <= MAX_SETS * n
    ensures exists j :: 0 <= j <= 3 && id == Back(newest, j, Groups(n))
  {
    hide Groups, Paws, First, Diff;
    var m := Groups(n);
    PawsGap(n);
    FirstExact(newest, n);
    FirstExact(id, n);
    PawsIs(n);
    AheadBy(First(newest, n), First(id, n));
    if id <= newest {
      MulLe(id, newest, n);
      SameTurn(newest - id, newest, id, n);
      assert id == Back(newest, newest - id, m);
    } else {
      MulLe(newest + 1, id, n);
      NextTurn(newest - id + m, newest, id, m, n);
      assert id == Back(newest, newest - id + m, m);
    }
  }

  lemma AheadBy(a: u32, b: u32)
    requires Diff(a, b) >= 0
    ensures Diff(a, b) == if b <= a then a - b else a - b + RANGE
  {
  }

  lemma SameTurn(j: int, a: int, b: int, n: int)
    requires 0 < n && j == a - b && a * n - b * n <= 3 * n
    ensures j <= 3
  {
    Subtract(a, b, n);
    MulLess(j, 4, n);
  }

  lemma NextTurn(j: int, a: int, b: int, m: int, n: int)
    requires 0 < n && j == a - b + m && a * n - b * n + m * n < 3 * n
    ensures j <= 2
  {
    Subtract(a, b, n);
    Subtract(a - b, -m, n);
    assert (-m) * n == -(m * n);
    MulLess(j, 3, n);
  }

  lemma PawsIs(n: nat)
    requires 0 < n <= MAX_SHARDS
    ensures Paws(n) == Groups(n) * n
  {
  }

  /** Only used groups have sets.  The newest may be one past them, when the decoder
      took it from an id that its new counts do not use. */
  ghost predicate InRange(dec: Dec)
    requires Sane(dec)
  {
    dec.newest <= Groups(Size(dec)) && forall id :: id in dec.sets ==> id < Groups(Size(dec))
  }

  lemma DivBelow(x: u32, n: nat, m: nat)
    requires 0 < n && x < m * n
    ensures x / n < m
  {
    assert x / n * n <= x;
    MulLess(x / n, m, n);
  }

  lemma CollectKeepsRange(dec: Dec, x: Pkt, c: Codec)
    requires Sane(dec) && InRange(dec) && x.seqid < Paws(Size(dec))
    ensures InRange(Collect(dec, x, c).dec)
  {
    DivBelow(x.seqid, Size(dec), Groups(Size(dec)));
  }

  lemma {:induction false} SubsetSize(a: set<u32>, b: set<u32>)
    requires a <= b
    ensures |a| <= |b|
  {
    if x :| x in a { SubsetSize(a - {x}, b - {x}); }
  }

  /** Storage bound: when every packet is less than half the range minus four
      intervals from the newest set, the decoder never keeps more than four sets,
      even across the point where the ids start again. */
  lemma AtMostFourSets(dec: Dec)
    requires Sane(dec) && InRange(dec) && Recent(dec)
    ensures |dec.sets| <= 4
  {
    var n := Size(dec);
    var m := Groups(n);
    PawsGap(n);
    var four: set<u32> := {Back(dec.newest, 0, m), Back(dec.newest, 1, m), Back(dec.newest, 2, m), Back(dec.newest, 3, m)};
    forall id | id in dec.sets.Keys ensures id in four { RecentIsOneOfFour(dec.newest, id, n); }
    SubsetSize(dec.sets.Keys, four);
  }

  // ------------------------------------------------------------------------ runs

  ghost function Fed(dec: Dec, x: Pkt, c: Codec): Dec { if Sane(dec) then Collect(dec, x, c).dec else dec }

  /** A decoder that has collected nothing, new or just retuned, fed with arbitrary
      packets that pass its checks, each near the newest set at that moment. */
  ghost predicate IsFeed(decs: seq<Dec>, xs: seq<Pkt>, d: nat, p: nat, c: Codec) {
    && d > 0 && p > 0 && d + p <= 256 && |decs| == |xs| + 1
    && decs[0] == Dec(d, p, map[], decs[0].newest) && decs[0].newest <= Groups(d + p)
    && forall i :: 0 <= i < |xs| ==> decs[i + 1] == Fed(decs[i], xs[i], c) && Admissible(decs[i], xs[i])
  }

  ghost predicate Admissible(dec: Dec, x: Pkt) { Sane(dec) ==> x.seqid < Paws(Size(dec)) && Near(dec, x) }

  /** After every packet, each set holds fewer than dataShards packets, no id twice,
      and there are at most four sets. */
  lemma {:induction false} StorageBound(decs: seq<Dec>, xs: seq<Pkt>, d: nat, p: nat, c: Codec, k: nat)
    requires IsFeed(decs, xs, d, p, c) && k < |decs|
    ensures Sane(decs[k]) && SetsOk(decs[k]) && Recent(decs[k]) && InRange(decs[k]) && |decs[k].sets| <= 4
  {
    hide Collect, SetsOk, Recent, Paws;
    if k == 0 {
      EmptyIsFine(d, p, decs[0].newest);
    } else {
      StorageBound(decs, xs, d, p, c, k - 1);
      assert Admissible(decs[k-1], xs[k-1]) && decs[k] == Fed(decs[k-1], xs[k-1], c);
      CollectKeepsSets(decs[k-1], xs[k-1], c);
      CollectKeepsRecent(decs[k-1], xs[k-1], c);
      CollectKeepsRange(decs[k-1], xs[k-1], c);
    }
    AtMostFourSets(decs[k]);
  }

  lemma EmptyIsFine(d: nat, p: nat, newest: u32)
    requires d > 0 && p > 0 && d + p <= 256 && newest <= Groups(d + p)
    ensures var dec := Dec(d, p, map[], newest); SetsOk(dec) && Recent(dec) && InRange(dec)
  {
    PawsGap(d + p);
  }
}
