/** The receive buffer: a heap of segments ordered by circular sequence number,
    with a set of marks for duplicate detection.  It represents the map from
    numbers to segments that the reference definitions use. */
module SegmentHeap {
  import opened Serial
  import opened KcpState
  import Heap

  predicate Less(a: Segment, b: Segment) { Diff(b.sn, a.sn) > 0 }

  /** Distance from the next expected number. */
  function Rank(nxt: u32): Segment -> int { (g: Segment) => Ahead(nxt, g.sn) }

  /** The slice and the marks hold exactly the segments of the map, once each. */
  ghost predicate Holds(h: seq<Segment>, marks: set<u32>, m: map<u32, Segment>) {
    && m.Keys == marks
    && (forall sn :: sn in m ==> m[sn].sn == sn && multiset(h)[m[sn]] == 1)
    && (forall g :: g in multiset(h) ==> g.sn in m && m[g.sn] == g)
  }

  /** The heap is in order as seen from `nxt`, and reaches less than half the circle. */
  ghost predicate InOrder(h: seq<Segment>, nxt: u32) {
    && (forall i :: ChildAfter(h, nxt, i))
    && forall g :: g in multiset(h) ==> Ahead(nxt, g.sn) < HALF
  }

  ghost predicate ChildAfter(h: seq<Segment>, nxt: u32, i: int) {
    0 < i < |h| ==> Ahead(nxt, h[Heap.Parent(i)].sn) <= Ahead(nxt, h[i].sn)
  }

  lemma InOrderIsHeap(h: seq<Segment>, nxt: u32)
    ensures (forall i :: ChildAfter(h, nxt, i)) <==> Heap.IsHeap(h, Rank(nxt))
  {
    if Heap.IsHeap(h, Rank(nxt)) {
      forall i ensures ChildAfter(h, nxt, i) { assert Heap.Ordered(h, Rank(nxt), i); }
    }
    if forall i :: ChildAfter(h, nxt, i) {
      forall i {:trigger Heap.Ordered(h, Rank(nxt), i)} ensures Heap.Ordered(h, Rank(nxt), i) { assert ChildAfter(h, nxt, i); }
    }
  }

  lemma RanksCompare(nxt: u32, a: u32, b: u32)
    requires Ahead(nxt, a) < HALF && Ahead(nxt, b) < HALF
    ensures Diff(b, a) == Ahead(nxt, b) - Ahead(nxt, a)
  {
  }

  /** Inside half the circle the circular comparison agrees with the distance. */
  lemma LessAgrees(nxt: u32, s: multiset<Segment>)
    requires forall g :: g in s ==> Ahead(nxt, g.sn) < HALF
    ensures Heap.Agrees(Less, Rank(nxt), s)
  {
    forall a, b | a in s && b in s ensures Less(a, b) <==> Rank(nxt)(a) < Rank(nxt)(b) {
      RanksCompare(nxt, a.sn, b.sn);
    }
  }

  method Push(h: seq<Segment>, marks: set<u32>, g: Segment, ghost nxt: u32, ghost m: map<u32, Segment>)
      returns (h': seq<Segment>, marks': set<u32>)
    requires Holds(h, marks, m) && InOrder(h, nxt) && g.sn !in m && Ahead(nxt, g.sn) < HALF
    ensures Holds(h', marks', m[g.sn := g]) && InOrder(h', nxt)
  {
    assert g !in multiset(h);
    LessAgrees(nxt, multiset(h) + multiset{g});
    InOrderIsHeap(h, nxt);
    h' := Heap.Push(h, g, Less, Rank(nxt));
    InOrderIsHeap(h', nxt);
    marks' := marks + {g.sn};
    ghost var m' := m[g.sn := g];
    forall sn | sn in m' ensures m'[sn].sn == sn && multiset(h')[m'[sn]] == 1 {
      if sn != g.sn { assert m[sn] in multiset(h); }
    }
  }

  method Pop(h: seq<Segment>, marks: set<u32>, ghost nxt: u32, ghost m: map<u32, Segment>)
      returns (g: Segment, h': seq<Segment>, marks': set<u32>)
    requires h != [] && Holds(h, marks, m) && InOrder(h, nxt)
    ensures g.sn in m && m[g.sn] == g && Ahead(nxt, g.sn) < HALF
    ensures nxt in m ==> g.sn == nxt
    ensures Holds(h', marks', m - {g.sn}) && InOrder(h', nxt)
  {
    LessAgrees(nxt, multiset(h));
    InOrderIsHeap(h, nxt);
    g, h' := Heap.Pop(h, Less, Rank(nxt));
    InOrderIsHeap(h', nxt);
    marks' := marks - {g.sn};
    LeastIsNext(h, marks, m, nxt, g);
    Removed(h, h', marks, m, g);
    StaysNear(h, h', nxt, g);
  }

  lemma StaysNear(h: seq<Segment>, h': seq<Segment>, nxt: u32, g: Segment)
    requires InOrder(h, nxt) && (forall i :: ChildAfter(h', nxt, i)) && multiset(h) == multiset(h') + multiset{g}
    ensures InOrder(h', nxt) && Ahead(nxt, g.sn) < HALF
  {
    assert g in multiset(h);
    forall x | x in multiset(h') ensures Ahead(nxt, x.sn) < HALF { assert x in multiset(h); }
  }

  lemma LeastIsNext(h: seq<Segment>, marks: set<u32>, m: map<u32, Segment>, nxt: u32, g: Segment)
    requires Holds(h, marks, m) && forall i :: 0 <= i < |h| ==> Rank(nxt)(g) <= Rank(nxt)(h[i])
    ensures nxt in m ==> g.sn == nxt
  {
    if nxt in m {
      assert m[nxt] in multiset(h);
      var i :| 0 <= i < |h| && h[i] == m[nxt];
      ZeroRank(nxt, g.sn);
    }
  }

  lemma Removed(h: seq<Segment>, h': seq<Segment>, marks: set<u32>, m: map<u32, Segment>, g: Segment)
    requires Holds(h, marks, m) && multiset(h) == multiset(h') + multiset{g}
    ensures g.sn in m && m[g.sn] == g && Holds(h', marks - {g.sn}, m - {g.sn})
  {
    assert g in multiset(h);
    var m' := m - {g.sn};
    forall x | x in multiset(h') ensures x.sn in m' && m'[x.sn] == x {
      assert x in multiset(h);
    }
    forall sn | sn in m' ensures m'[sn].sn == sn && multiset(h')[m'[sn]] == 1 {
      assert m'[sn] != g;
    }
  }

  lemma ZeroRank(nxt: u32, sn: u32)
    requires Ahead(nxt, sn) <= 0
    ensures sn == nxt
  {
  }

  lemma EmptyHeap(h: seq<Segment>, marks: set<u32>, m: map<u32, Segment>)
    requires Holds(h, marks, m)
    ensures h == [] <==> m == map[]
  {
    if h != [] { assert h[0] in multiset(h); }
    if m != map[] { var sn :| sn in m; assert m[sn] in multiset(h); }
  }

  /** Everything buffered lies ahead of nxt, so moving nxt on keeps the order. */
  lemma NextKeepsOrder(h: seq<Segment>, nxt: u32)
    requires InOrder(h, nxt) && forall g :: g in multiset(h) ==> g.sn != nxt
    ensures InOrder(h, W(nxt + 1))
  {
    forall g | g in multiset(h) ensures Ahead(W(nxt + 1), g.sn) == Ahead(nxt, g.sn) - 1 { NextRank(nxt, g.sn); }
    forall i {:trigger ChildAfter(h, W(nxt + 1), i)} ensures ChildAfter(h, W(nxt + 1), i) {
      assert ChildAfter(h, nxt, i);
      if 0 < i < |h| { assert h[i] in multiset(h) && h[Heap.Parent(i)] in multiset(h); }
    }
  }

  lemma NextRank(nxt: u32, sn: u32)
    requires sn != nxt
    ensures Ahead(W(nxt + 1), sn) == Ahead(nxt, sn) - 1
  {
  }
}
