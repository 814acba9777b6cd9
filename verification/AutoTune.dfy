/** Detection of the peer's shard counts from the types of its packets: a ring of
    the last samples, sorted, stripped of duplicates and searched for one complete
    pulse. */
module AutoTune {
  import opened Facts
  import opened Serial
  import opened FecDecoder

  const MAX_SAMPLES: int := 258

  datatype Pulse = Pulse(bit: bool, id: u32)

  // ----------------------------------------------------- samples in half a circle

  ghost predicate InHalf(b: u32, s: seq<Pulse>) { forall i :: 0 <= i < |s| ==> Ahead(b, s[i].id) < HALF }

  predicate Before(x: Pulse, y: Pulse) { Diff(x.id, y.id) < 0 }

  lemma BeforeIsRank(b: u32, x: Pulse, y: Pulse)
    requires Ahead(b, x.id) < HALF && Ahead(b, y.id) < HALF
    ensures Before(x, y) <==> Ahead(b, x.id) < Ahead(b, y.id)
    ensures x.id == y.id <==> Ahead(b, x.id) == Ahead(b, y.id)
  {
  }

  ghost predicate Ascending(b: u32, s: seq<Pulse>) {
    forall i, j :: 0 <= i < j < |s| ==> Ahead(b, s[i].id) <= Ahead(b, s[j].id)
  }

  ghost predicate Strictly(b: u32, s: seq<Pulse>) {
    forall i, j :: 0 <= i < j < |s| ==> Ahead(b, s[i].id) < Ahead(b, s[j].id)
  }

  // -------------------------------------------------------------------- sorting

  /** Sorting by sequence id: the samples in some order, ascending when they lie in
      half a circle. */
  method Sort(s: seq<Pulse>) returns (r: seq<Pulse>)
    ensures multiset(r) == multiset(s)
    ensures forall b :: InHalf(b, s) ==> InHalf(b, r) && Ascending(b, r)
  {
    r := [];
    var i := 0;
    while i < |s|
      invariant 0 <= i <= |s| && multiset(r) == multiset(s[..i])
      invariant forall b :: InHalf(b, s) ==> InHalf(b, r) && Ascending(b, r)
    {
      assert s[..i + 1] == s[..i] + [s[i]];
      r := Insert(r, s[i]);
      i := i + 1;
    }
    assert s[..i] == s;
  }

  method Insert(s: seq<Pulse>, x: Pulse) returns (r: seq<Pulse>)
    ensures multiset(r) == multiset(s) + multiset{x}
    ensures forall b :: InHalf(b, s) && Ascending(b, s) && Ahead(b, x.id) < HALF ==> InHalf(b, r) && Ascending(b, r)
  {
    var k := |s|;
    while k > 0 && Before(x, s[k - 1])
      invariant 0 <= k <= |s|
      invariant forall j :: k <= j < |s| ==> Before(x, s[j])
    {
      k := k - 1;
    }
    r := s[..k] + [x] + s[k..];
    assert s == s[..k] + s[k..];
    forall b | InHalf(b, s) && Ascending(b, s) && Ahead(b, x.id) < HALF ensures InHalf(b, r) && Ascending(b, r) {
      InsertAscends(b, s, x, k);
    }
  }

  lemma InsertAscends(b: u32, s: seq<Pulse>, x: Pulse, k: nat)
    requires InHalf(b, s) && Ascending(b, s) && Ahead(b, x.id) < HALF && k <= |s|
    requires (forall j :: k <= j < |s| ==> Before(x, s[j])) && (k > 0 ==> !Before(x, s[k - 1]))
    ensures var r := s[..k] + [x] + s[k..]; InHalf(b, r) && Ascending(b, r)
  {
    hide Ahead, Before;
    var r := s[..k] + [x] + s[k..];
    forall j | 0 <= j < |s| ensures if j < k then Ahead(b, s[j].id) <= Ahead(b, x.id) else Ahead(b, x.id) <= Ahead(b, s[j].id) {
      BeforeIsRank(b, x, s[j]);
      if k > 0 { BeforeIsRank(b, x, s[k - 1]); }
    }
  }

  // ----------------------------------------------------------------- duplicates

  /** How many pulses at the front have the first one's id. */
  function RunEnd(s: seq<Pulse>): (e: nat)
    requires s != []
    ensures 0 < e <= |s| && (forall i :: 0 <= i < e ==> s[i].id == s[0].id) && (e < |s| ==> s[e].id != s[0].id)
  {
    if |s| > 1 && s[|s|-1].id == s[0].id && RunEnd(s[..|s|-1]) == |s| - 1 then |s|
    else if |s| == 1 then 1
    else RunEnd(s[..|s|-1])
  }

  predicate Conflict(s: seq<Pulse>, e: nat)
    requires 0 < e <= |s|
  {
    exists i :: 0 <= i < e && s[i].bit != s[0].bit
  }

  /** One pulse per id; ids with contradicting samples are left out. */
  function Unique(s: seq<Pulse>): (u: seq<Pulse>)
    ensures |u| <= |s|
  {
    if s == [] then []
    else
      var e := RunEnd(s);
      (if Conflict(s, e) then [] else [s[0]]) + Unique(s[e..])
  }

  /** Samples of one id agree. */
  ghost predicate Consistent(s: seq<Pulse>) {
    forall i, j :: 0 <= i < |s| && 0 <= j < |s| && s[i].id == s[j].id ==> s[i] == s[j]
  }

  lemma FrontAgrees(s: seq<Pulse>)
    requires s != [] && Consistent(s)
    ensures (forall i :: 0 <= i < RunEnd(s) ==> s[i] == s[0]) && !Conflict(s, RunEnd(s))
  {
  }

  lemma SplitIn(s: seq<Pulse>, e: nat, x: Pulse)
    requires 0 < e <= |s| && forall i :: 0 <= i < e ==> s[i] == s[0]
    ensures x in s <==> x == s[0] || x in s[e..]
  {
    assert s == s[..e] + s[e..];
  }

  lemma TailConsistent(s: seq<Pulse>, e: nat)
    requires e <= |s| && Consistent(s)
    ensures Consistent(s[e..])
  {
  }

  lemma {:induction false} UniqueKeeps(s: seq<Pulse>, x: Pulse)
    requires Consistent(s)
    ensures x in Unique(s) <==> x in s
    decreases |s|
  {
    hide Consistent, Conflict;
    if s != [] {
      var e := RunEnd(s);
      FrontAgrees(s);
      SplitIn(s, e, x);
      TailConsistent(s, e);
      UniqueKeeps(s[e..], x);
    }
  }

  lemma RestAfter(b: u32, s: seq<Pulse>, j: nat)
    requires s != [] && InHalf(b, s) && Ascending(b, s) && RunEnd(s) <= j < |s|
    ensures Ahead(b, s[0].id) < Ahead(b, s[j].id)
  {
    hide Ahead;
    var e := RunEnd(s);
    BeforeIsRank(b, s[0], s[e]);
    assert Ahead(b, s[0].id) <= Ahead(b, s[e].id);
    assert Ahead(b, s[e].id) <= Ahead(b, s[j].id);
  }

  lemma StrictFront(b: u32, x: Pulse, u: seq<Pulse>)
    requires Strictly(b, u) && InHalf(b, u) && Ahead(b, x.id) < HALF
    requires forall i :: 0 <= i < |u| ==> Ahead(b, x.id) < Ahead(b, u[i].id)
    ensures Strictly(b, [x] + u) && InHalf(b, [x] + u)
  {
    hide Ahead;
  }

  lemma TailAscends(b: u32, s: seq<Pulse>, e: nat)
    requires e <= |s| && InHalf(b, s) && Ascending(b, s) && Consistent(s)
    ensures InHalf(b, s[e..]) && Ascending(b, s[e..]) && Consistent(s[e..])
  {
    hide Ahead;
  }

  lemma {:induction false} UniqueStrict(b: u32, s: seq<Pulse>)
    requires InHalf(b, s) && Ascending(b, s) && Consistent(s)
    ensures Strictly(b, Unique(s)) && InHalf(b, Unique(s))
    decreases |s|
  {
    hide Ahead, InHalf, Ascending, Consistent, Strictly;
    if s == [] {
      NothingStrict(b);
    } else {
      var e := RunEnd(s);
      TailAscends(b, s, e);
      UniqueStrict(b, s[e..]);
      var u := Unique(s[e..]);
      forall i | 0 <= i < |u| ensures Ahead(b, s[0].id) < Ahead(b, u[i].id) {
        UniqueKeeps(s[e..], u[i]);
        var j :| 0 <= j < |s[e..]| && s[e..][j] == u[i];
        RestAfter(b, s, e + j);
      }
      FirstInHalf(b, s);
      StrictFront(b, s[0], u);
      assert [] + u == u;
    }
  }

  lemma NothingStrict(b: u32)
    ensures Strictly(b, []) && InHalf(b, [])
  {
  }

  lemma FirstInHalf(b: u32, s: seq<Pulse>)
    requires s != [] && InHalf(b, s)
    ensures Ahead(b, s[0].id) < HALF
  {
  }

  // ------------------------------------------------------------ complete pulses

  /** Consecutive ids from just before `left` up to `right`, all of the target type
      in between and of the other type at both ends. */
  ghost predicate Complete(u: seq<Pulse>, bit: bool, left: int, right: int) {
    && 1 <= left < right < |u|
    && u[left - 1].bit != bit && u[right].bit != bit
    && (forall i :: left <= i < right ==> u[i].bit == bit)
    && (forall i :: left <= i <= right ==> Adjacent(u, i))
  }

  ghost predicate Adjacent(u: seq<Pulse>, i: int)
    requires 1 <= i < |u|
  {
    W(u[i - 1].id + 1) == u[i].id
  }

  /** r is the width of a complete pulse, or -1 when there is none. */
  ghost predicate Searched(u: seq<Pulse>, bit: bool, r: int) {
    || (r == -1 && !exists l, k :: Complete(u, bit, l, k))
    || (exists l, k :: Complete(u, bit, l, k) && r == Diff(u[k].id, u[l].id))
  }

  /** The search for the first complete pulse. */
  method Scan(u: seq<Pulse>, bit: bool) returns (r: int)
    ensures Searched(u, bit, r)
  {
    var l := 1;
    while l < |u|
      invariant 1 <= l && forall i, k :: Complete(u, bit, i, k) ==> i >= l
    {
      if u[l - 1].bit != bit && u[l].bit == bit && W(u[l - 1].id + 1) == u[l].id {
        assert Adjacent(u, l);
        var k := l + 1;
        while k < |u|
          invariant l < k && k <= |u|
          invariant forall i :: l <= i < k ==> u[i].bit == bit && Adjacent(u, i)
          invariant forall j :: Complete(u, bit, l, j) ==> j >= k
        {
          if W(u[k - 1].id + 1) != u[k].id {
            assert !Adjacent(u, k);
            break;
          }
          assert Adjacent(u, k);
          if u[k].bit != bit {
            assert Complete(u, bit, l, k);
            return Diff(u[k].id, u[l].id);
          }
          k := k + 1;
        }
        assert forall j :: !Complete(u, bit, l, j);
      } else {
        assert !Adjacent(u, l) || u[l - 1].bit == bit || u[l].bit != bit;
        assert forall j :: !Complete(u, bit, l, j);
      }
      l := l + 1;
    }
    return -1;
  }

  // ------------------------------------------------------------ genuine samples

  /** A sample of a sender with d data and p parity shards per group. */
  ghost predicate Genuine(x: Pulse, d: nat, p: nat)
    requires d > 0 && p > 0 && d + p <= 256
  {
    x.id < Paws(d + p) && (x.bit <==> x.id % (d + p) < d)
  }

  ghost predicate AllGenuine(s: seq<Pulse>, d: nat, p: nat)
    requires d > 0 && p > 0 && d + p <= 256
  {
    forall i :: 0 <= i < |s| ==> Genuine(s[i], d, p)
  }

  function Width(bit: bool, d: nat, p: nat): nat { if bit then d else p }

  /** Where in a group the pulses of a type begin. */
  function Edge(bit: bool, d: nat): nat { if bit then 0 else d }

  lemma GenuineAgree(s: seq<Pulse>, d: nat, p: nat)
    requires d > 0 && p > 0 && d + p <= 256 && AllGenuine(s, d, p)
    ensures Consistent(s)
  {
  }

  /** Consecutive pulses go on through the group. */
  lemma {:induction false} PlaceOf(u: seq<Pulse>, d: nat, p: nat, bit: bool, left: int, k: nat)
    requires d > 0 && p > 0 && d + p <= 256 && AllGenuine(u, d, p) && 1 <= left && left + k < |u|
    requires forall i :: left <= i <= left + k ==> Adjacent(u, i)
    requires u[left - 1].bit != bit && u[left].bit == bit && k <= Width(bit, d, p)
    ensures u[left + k].id == u[left].id + k
    ensures u[left + k].id % (d + p) == if Edge(bit, d) + k == d + p then 0 else Edge(bit, d) + k
  {
    hide Paws;
    var n := d + p;
    var i := left + k;
    assert Genuine(u[i], d, p) && Genuine(u[i - 1], d, p) && Adjacent(u, i);
    NoWrapBelow(u[i - 1].id, n);
    Successor(u[i - 1].id, n);
    if k > 0 { PlaceOf(u, d, p, bit, left, k - 1); }
  }

  lemma NoWrapBelow(x: u32, n: nat)
    requires 0 < n <= 256 && x < Paws(n)
    ensures W(x + 1) == x + 1
  {
    PawsGap(n);
  }

  /** Soundness: a complete pulse of genuine samples is exactly as wide as the
      sender's shard count. */
  lemma CompleteIsWidth(u: seq<Pulse>, d: nat, p: nat, bit: bool, left: int, right: int)
    requires d > 0 && p > 0 && d + p <= 256 && AllGenuine(u, d, p) && Complete(u, bit, left, right)
    ensures right - left == Width(bit, d, p) && Diff(u[right].id, u[left].id) == Width(bit, d, p)
  {
    hide Paws, Genuine, Diff;
    var w := Width(bit, d, p);
    var k := if right - left > w then w else right - left;
    PlaceOf(u, d, p, bit, left, k);
    BitAt(u[left + k], d, p, bit, k);
    ShortStep(u[left].id, k);
  }

  /** Within a pulse the type is the pulse's, and just behind it the other one. */
  lemma BitAt(x: Pulse, d: nat, p: nat, bit: bool, k: nat)
    requires d > 0 && p > 0 && d + p <= 256 && Genuine(x, d, p) && k <= Width(bit, d, p)
    requires x.id % (d + p) == if Edge(bit, d) + k == d + p then 0 else Edge(bit, d) + k
    ensures x.bit == bit <==> k < Width(bit, d, p)
  {
  }

  lemma ShortStep(x: u32, k: nat)
    requires k <= 256 && x + k < RANGE
    ensures Diff(x + k, x) == k
  {
  }

  // ----------------------------------------------------- when the width is found

  /** A whole pulse and its two neighbours were sampled: the ids from `a - 1` to
      `a + width`, where `a` begins a pulse. */
  ghost predicate Retained(s: seq<Pulse>, d: nat, p: nat, bit: bool, a: int)
    requires d > 0 && p > 0 && d + p <= 256
  {
    && 1 <= a && a % (d + p) == Edge(bit, d)
    && forall id :: a - 1 <= id <= a + Width(bit, d, p) ==> Sampled(s, id)
  }

  ghost predicate Sampled(s: seq<Pulse>, id: int) { exists i :: 0 <= i < |s| && s[i].id == id }

  /** Consecutive ids stand next to each other in a strictly ascending list. */
  lemma {:induction false} StandTogether(b: u32, u: seq<Pulse>, i: nat, k: nat)
    requires Strictly(b, u) && InHalf(b, u) && i < |u| && u[i].id + k < RANGE
    requires forall id :: u[i].id <= id <= u[i].id + k ==> Sampled(u, id)
    ensures i + k < |u| && u[i + k].id == u[i].id + k
  {
    hide Strictly, InHalf;
    if k > 0 {
      StandTogether(b, u, i, k - 1);
      assert Sampled(u, u[i].id + k);
      var m :| 0 <= m < |u| && u[m].id == u[i].id + k;
      NextStands(b, u, i + k - 1, m);
    }
  }

  lemma NextStands(b: u32, u: seq<Pulse>, j: nat, m: nat)
    requires Strictly(b, u) && InHalf(b, u) && j < |u| && m < |u| && u[m].id == u[j].id + 1
    ensures m == j + 1
  {
    hide Ahead;
    NextRank(b, u[j].id, u[m].id);
    assert j + 1 < |u| ==> Ahead(b, u[j].id) < Ahead(b, u[j + 1].id);
  }

  lemma NextRank(b: u32, x: u32, y: u32)
    requires y == x + 1 && Ahead(b, x) < HALF && Ahead(b, y) < HALF
    ensures Ahead(b, y) == Ahead(b, x) + 1
  {
  }

  predicate IsData(id: int, d: nat, p: nat)
    requires d + p > 0
  {
    id % (d + p) < d
  }

  lemma TogetherTo(b: u32, u: seq<Pulse>, d: nat, p: nat, bit: bool, a: int, i: nat, id: int)
    requires d > 0 && p > 0 && d + p <= 256 && Strictly(b, u) && InHalf(b, u) && Retained(u, d, p, bit, a)
    requires i < |u| && u[i].id == a - 1 && a - 1 <= id <= a + Width(bit, d, p)
    ensures i + id - (a - 1) < |u| && u[i + id - (a - 1)].id == id
  {
    assert Sampled(u, id);
    StandTogether(b, u, i, id - (a - 1));
  }

  /** Completeness: a retained pulse is found, whichever it is. */
  lemma RetainedIsComplete(b: u32, u: seq<Pulse>, d: nat, p: nat, bit: bool, a: int) returns (left: int)
    requires d > 0 && p > 0 && d + p <= 256 && AllGenuine(u, d, p) && Strictly(b, u) && InHalf(b, u) && Retained(u, d, p, bit, a)
    ensures Complete(u, bit, left, left + Width(bit, d, p))
  {
    hide Strictly, InHalf, Paws, Retained;
    var n, w := d + p, Width(bit, d, p);
    var i := FirstSample(u, d, p, bit, a);
    left := i + 1;
    TogetherTo(b, u, d, p, bit, a, i, a + w);
    BitsOfPulse(a, d, p, bit);
    forall j | i <= j <= i + w + 1 ensures j < |u| && u[j].id == a - 1 + (j - i) && (u[j].bit <==> IsData(a - 1 + (j - i), d, p)) {
      TogetherTo(b, u, d, p, bit, a, i, a - 1 + (j - i));
      assert Genuine(u[j], d, p);
    }
    forall j | left <= j <= left + w ensures Adjacent(u, j) { assert u[j - 1].id + 1 == u[j].id; }
  }

  lemma FirstSample(u: seq<Pulse>, d: nat, p: nat, bit: bool, a: int) returns (i: nat)
    requires d > 0 && p > 0 && d + p <= 256 && Retained(u, d, p, bit, a)
    ensures i < |u| && u[i].id == a - 1 && a % (d + p) == Edge(bit, d) && a >= 1
  {
    assert Sampled(u, a - 1);
    i :| 0 <= i < |u| && u[i].id == a - 1;
  }

  /** The types of the ids around a pulse. */
  lemma BitsOfPulse(a: int, d: nat, p: nat, bit: bool)
    requires d > 0 && p > 0 && 1 <= a && a % (d + p) == Edge(bit, d)
    ensures IsData(a - 1, d, p) <==> !bit
    ensures IsData(a + Width(bit, d, p), d, p) <==> !bit
    ensures forall id :: a <= id < a + Width(bit, d, p) ==> (IsData(id, d, p) <==> bit)
  {
    var n, w := d + p, Width(bit, d, p);
    Successor(a - 1, n);
    PlaceAfter(a, Edge(bit, d), n, w);
    forall id | a <= id < a + w ensures IsData(id, d, p) <==> bit { PlaceAfter(a, Edge(bit, d), n, id - a); }
  }

  lemma {:induction false} PlaceAfter(a: nat, e: nat, n: nat, k: nat)
    requires n > 0 && a % n == e && e + k <= n
    ensures (a + k) % n == if e + k == n then 0 else e + k
  {
    if k > 0 {
      PlaceAfter(a, e, n, k - 1);
      Successor(a + k - 1, n);
    }
  }

  // -------------------------------------------------------------- the detection

  /** r is the answer for the samples t: those sorted, one per id, and searched. */
  ghost predicate Answers(t: seq<Pulse>, bit: bool, r: int) {
    if |t| < 3 then r == -1 else exists s :: SortedCopy(s, t) && Searched(Unique(s), bit, r)
  }

  ghost predicate SortedCopy(s: seq<Pulse>, t: seq<Pulse>) {
    multiset(s) == multiset(t) && forall b :: InHalf(b, t) ==> InHalf(b, s) && Ascending(b, s)
  }

  lemma SameSamples(s: seq<Pulse>, t: seq<Pulse>, d: nat, p: nat)
    requires d > 0 && p > 0 && d + p <= 256 && multiset(s) == multiset(t) && AllGenuine(t, d, p)
    ensures AllGenuine(s, d, p) && forall x :: x in s <==> x in t
  {
    hide Genuine;
    forall x ensures x in s <==> x in t { assert x in multiset(s) <==> x in multiset(t); }
    forall i | 0 <= i < |s| ensures Genuine(s[i], d, p) {
      assert s[i] in t;
      var j :| 0 <= j < |t| && t[j] == s[i];
      assert Genuine(t[j], d, p);
    }
  }

  lemma UniqueSamples(s: seq<Pulse>, d: nat, p: nat)
    requires d > 0 && p > 0 && d + p <= 256 && AllGenuine(s, d, p)
    ensures AllGenuine(Unique(s), d, p) && forall x :: x in Unique(s) <==> x in s
  {
    GenuineAgree(s, d, p);
    forall x ensures x in Unique(s) <==> x in s { UniqueKeeps(s, x); }
  }

  lemma SampledInBoth(s: seq<Pulse>, t: seq<Pulse>, id: int)
    requires forall x :: x in s <==> x in t
    ensures Sampled(s, id) <==> Sampled(t, id)
  {
    if Sampled(s, id) { var i :| 0 <= i < |s| && s[i].id == id; assert s[i] in t; }
    if Sampled(t, id) { var i :| 0 <= i < |t| && t[i].id == id; assert t[i] in s; }
  }

  lemma RetainedInBoth(s: seq<Pulse>, t: seq<Pulse>, d: nat, p: nat, bit: bool, a: int)
    requires d > 0 && p > 0 && d + p <= 256 && forall x :: x in s <==> x in t
    ensures Retained(s, d, p, bit, a) <==> Retained(t, d, p, bit, a)
  {
    forall id ensures Sampled(s, id) <==> Sampled(t, id) { SampledInBoth(s, t, id); }
  }

  /** A complete pulse is retained. */
  lemma CompleteIsRetained(u: seq<Pulse>, d: nat, p: nat, bit: bool, left: int, right: int)
    requires d > 0 && p > 0 && d + p <= 256 && AllGenuine(u, d, p) && Complete(u, bit, left, right)
    ensures Retained(u, d, p, bit, u[left].id)
  {
    hide Paws;
    var a, w := u[left].id, Width(bit, d, p);
    CompleteIsWidth(u, d, p, bit, left, right);
    PlaceOf(u, d, p, bit, left, 0);
    assert Adjacent(u, left) && Genuine(u[left - 1], d, p);
    NoWrapBelow(u[left - 1].id, d + p);
    forall id | a - 1 <= id <= a + w ensures Sampled(u, id) {
      if id >= a { PlaceOf(u, d, p, bit, left, id - a); assert u[left + (id - a)].id == id; } else { assert u[left - 1].id == id; }
    }
  }

  lemma RetainedIsThree(t: seq<Pulse>, d: nat, p: nat, bit: bool, a: int)
    requires d > 0 && p > 0 && d + p <= 256 && Retained(t, d, p, bit, a)
    ensures |t| >= 3
  {
    assert Sampled(t, a - 1) && Sampled(t, a) && Sampled(t, a + 1);
    var i :| 0 <= i < |t| && t[i].id == a - 1;
    var j :| 0 <= j < |t| && t[j].id == a;
    var k :| 0 <= k < |t| && t[k].id == a + 1;
  }

  /** Auto-tune is sound and complete: for samples of a sender with d data and p
      parity shards within half the range, in any order, with losses and duplicates,
      the answer is exactly the sender's count when a whole pulse and both its
      neighbours are among the samples, and -1 otherwise. */
  lemma DetectsExactly(t: seq<Pulse>, d: nat, p: nat, b: u32, bit: bool, r: int)
    requires d > 0 && p > 0 && d + p <= 256 && AllGenuine(t, d, p) && InHalf(b, t) && Answers(t, bit, r)
    ensures if exists a :: Retained(t, d, p, bit, a) then r == Width(bit, d, p) else r == -1
  {
    hide Genuine, Complete, Retained, AllGenuine, InHalf, Ascending, Strictly;
    if |t| < 3 && r == -1 {
      if a :| Retained(t, d, p, bit, a) { RetainedIsThree(t, d, p, bit, a); }
    } else {
      var s :| SortedCopy(s, t) && Searched(Unique(s), bit, r);
      var u := Unique(s);
      SameSamples(s, t, d, p);
      GenuineAgree(s, d, p);
      UniqueSamples(s, d, p);
      UniqueStrict(b, s);
      forall a ensures Retained(u, d, p, bit, a) <==> Retained(t, d, p, bit, a) { RetainedInBoth(u, t, d, p, bit, a); }
      SearchIsExact(u, d, p, b, bit, r);
    }
  }

  lemma SearchIsExact(u: seq<Pulse>, d: nat, p: nat, b: u32, bit: bool, r: int)
    requires d > 0 && p > 0 && d + p <= 256 && AllGenuine(u, d, p) && Strictly(b, u) && InHalf(b, u) && Searched(u, bit, r)
    ensures if exists a :: Retained(u, d, p, bit, a) then r == Width(bit, d, p) else r == -1
  {
    hide Genuine, Retained, AllGenuine, InHalf, Strictly, Diff, Adjacent;
    if a :| Retained(u, d, p, bit, a) {
      var left := RetainedIsComplete(b, u, d, p, bit, a);
      assert Complete(u, bit, left, left + Width(bit, d, p));
    }
    if l, k :| Complete(u, bit, l, k) && r == Diff(u[k].id, u[l].id) {
      CompleteIsWidth(u, d, p, bit, l, k);
      CompleteIsRetained(u, d, p, bit, l, k);
    }
  }

  /** The answer depends on which samples there are, not on their order. */
  lemma OrderDoesNotMatter(t: seq<Pulse>, t': seq<Pulse>, d: nat, p: nat, b: u32, bit: bool, r: int, r': int)
    requires d > 0 && p > 0 && d + p <= 256 && AllGenuine(t, d, p) && InHalf(b, t) && (forall x :: x in t <==> x in t')
    requires Answers(t, bit, r) && Answers(t', bit, r')
    ensures r == r'
  {
    hide Genuine, Retained, Answers;
    assert AllGenuine(t', d, p) && InHalf(b, t') by {
      forall i | 0 <= i < |t'| ensures Genuine(t'[i], d, p) && Ahead(b, t'[i].id) < HALF { assert t'[i] in t; }
    }
    DetectsExactly(t, d, p, b, bit, r);
    DetectsExactly(t', d, p, b, bit, r');
    forall a ensures Retained(t, d, p, bit, a) <==> Retained(t', d, p, bit, a) { RetainedInBoth(t, t', d, p, bit, a); }
  }

  // ------------------------------------------------------------------- the ring

  /** The slots from head on, `count` of them, going round. */
  ghost function Around(es: seq<Pulse>, head: nat, count: nat): (r: seq<Pulse>)
    requires head < |es| && count <= |es|
    ensures |r| == count
  {
    if head + count <= |es| then es[head..head + count] else es[head..] + es[..head + count - |es|]
  }

  function Next(i: nat): nat { if i + 1 == MAX_SAMPLES then 0 else i + 1 }

  function SlotAt(head: nat, i: nat): nat { if head + i >= MAX_SAMPLES then head + i - MAX_SAMPLES else head + i }

  lemma AroundAt(es: seq<Pulse>, head: nat, count: nat, i: nat)
    requires |es| == MAX_SAMPLES && head < |es| && i < count <= |es|
    ensures SlotAt(head, i) < |es| && Around(es, head, count)[i] == es[SlotAt(head, i)]
  {
  }

  lemma AroundAdd(es: seq<Pulse>, head: nat, count: nat, x: Pulse)
    requires |es| == MAX_SAMPLES && head < |es| && count < |es|
    ensures SlotAt(head, count) < |es| && Around(es[SlotAt(head, count) := x], head, count + 1) == Around(es, head, count) + [x]
  {
  }

  lemma AroundReplace(es: seq<Pulse>, head: nat, x: Pulse)
    requires |es| == MAX_SAMPLES && head < |es|
    ensures Around(es[head := x], Next(head), |es|) == Around(es, head, |es|)[1..] + [x]
  {
  }

  /** The samples kept: the last 258. */
  ghost function Latest(t: seq<Pulse>, x: Pulse): seq<Pulse> {
    if |t| < MAX_SAMPLES then t + [x] else t[1..] + [x]
  }

  class Tuner {
    const pulses: array<Pulse>
    var head: nat
    var tail: nat
    var count: nat

    ghost predicate Valid()
      reads this, pulses
    {
      pulses.Length == MAX_SAMPLES && head < MAX_SAMPLES && count <= MAX_SAMPLES && tail == SlotAt(head, count)
    }

    /** The retained samples, oldest first. */
    ghost function Contents(): seq<Pulse>
      requires Valid()
      reads this, pulses
    {
      Around(pulses[..], head, count)
    }

    constructor ()
      ensures Valid() && Contents() == [] && fresh(pulses)
    {
      pulses := new Pulse[MAX_SAMPLES];
      head, tail, count := 0, 0, 0;
    }

    method Sample(bit: bool, id: u32)
      requires Valid()
      modifies this, pulses
      ensures Valid() && Contents() == Latest(old(Contents()), Pulse(bit, id))
    {
      hide Around;
      ghost var es := pulses[..];
      if count < MAX_SAMPLES { AroundAdd(es, head, count, Pulse(bit, id)); } else { AroundReplace(es, head, Pulse(bit, id)); }
      pulses[tail] := Pulse(bit, id);
      assert pulses[..] == es[tail := Pulse(bit, id)];
      tail := (tail + 1) % MAX_SAMPLES;
      if count < MAX_SAMPLES {
        count := count + 1;
      } else {
        head := (head + 1) % MAX_SAMPLES;
      }
    }

    method FindPeriod(bit: bool) returns (r: int)
      requires Valid()
      ensures Answers(Contents(), bit, r)
    {
      if count < 3 {
        return -1;
      }
      var copy: seq<Pulse> := [];
      var i := 0;
      while i < count
        invariant 0 <= i <= count && copy == Contents()[..i]
      {
        AroundAt(pulses[..], head, count, i);
        copy := copy + [pulses[(head + i) % MAX_SAMPLES]];
        i := i + 1;
      }
      assert copy == Contents();
      var sorted := Sort(copy);
      var u := Collapse(sorted);
      r := Scan(u, bit);
      assert SortedCopy(sorted, Contents()) && Searched(Unique(sorted), bit, r);
    }
  }

  /** The pulses with the id at position i, and whether they contradict each other. */
  method FindRun(s: seq<Pulse>, i: nat) returns (end: nat, conflict: bool)
    requires i < |s|
    ensures i < end <= |s| && Unique(s[i..]) == (if conflict then [] else [s[i]]) + Unique(s[end..])
  {
    end, conflict := i + 1, false;
    while end < |s| && s[end].id == s[i].id
      invariant i < end <= |s|
      invariant forall j :: i <= j < end ==> s[j].id == s[i].id
      invariant conflict <==> exists j :: i <= j < end && s[j].bit != s[i].bit
    {
      conflict := conflict || s[end].bit != s[i].bit;
      end := end + 1;
    }
    RunIs(s, i, end, conflict);
  }

  lemma RunEndIs(t: seq<Pulse>, e: nat)
    requires 0 < e <= |t| && (forall j :: 0 <= j < e ==> t[j].id == t[0].id) && (e < |t| ==> t[e].id != t[0].id)
    ensures RunEnd(t) == e
  {
  }

  lemma RunIs(s: seq<Pulse>, i: nat, end: nat, conflict: bool)
    requires i < end <= |s| && (forall j :: i <= j < end ==> s[j].id == s[i].id) && (end < |s| ==> s[end].id != s[i].id)
    requires conflict <==> exists j :: i <= j < end && s[j].bit != s[i].bit
    ensures Unique(s[i..]) == (if conflict then [] else [s[i]]) + Unique(s[end..])
  {
    var t, e := s[i..], end - i;
    assert forall j :: 0 <= j < e ==> t[j] == s[i + j];
    RunEndIs(t, e);
    assert t[e..] == s[end..];
    if conflict { var j :| i <= j < end && s[j].bit != s[i].bit; assert t[j - i].bit != t[0].bit; }
    if Conflict(t, e) { var j :| 0 <= j < e && t[j].bit != t[0].bit; assert s[i + j].bit != s[i].bit; }
  }

  /** Keeps one pulse per id, in place, and drops ids with contradicting samples. */
  method Collapse(s: seq<Pulse>) returns (u: seq<Pulse>)
    ensures u == Unique(s)
  {
    var sorted := s;
    var unique, i := 0, 0;
    while i < |s|
      invariant 0 <= unique <= i <= |s| == |sorted|
      invariant sorted[..unique] + Unique(sorted[i..]) == Unique(s)
    {
      var end, conflict := FindRun(sorted, i);
      ghost var done, rest, x := sorted[..unique], sorted[end..], sorted[i];
      if !conflict {
        sorted := sorted[unique := sorted[i]];
        unique := unique + 1;
        assert sorted[..unique] == done + [x];
      }
      assert sorted[end..] == rest;
      KeepOne(done, x, conflict, Unique(rest));
      i := end;
    }
    return sorted[..unique];
  }

  lemma KeepOne(done: seq<Pulse>, x: Pulse, conflict: bool, rest: seq<Pulse>)
    ensures done + ((if conflict then [] else [x]) + rest) == (if conflict then done else done + [x]) + rest
  {
  }
}
