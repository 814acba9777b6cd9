/** How Send cuts what it is given into segments: as few as the segment size allows. */
module SendPacking {
  import opened Facts
  import opened Serial
  import opened KcpState
  import opened DeliveryRuns

  /** So many segments hold n bytes, and one less would not. */
  ghost predicate Needs(n: nat, mss: pos32, count: nat) { 0 < count && (count - 1) * mss < Max(n, 1) && n <= count * mss }

  lemma CountIsNeeded(n: nat, mss: pos32)
    ensures Needs(n, mss, FragmentCount(n, mss))
  {
    if n > mss {
      var c := (n + mss - 1) / mss;
      assert c * mss <= n + mss - 1 < c * mss + mss;
      assert (c - 1) * mss == c * mss - mss;
      if c <= 0 { MulLe(c, 0, mss); }
    }
  }

  /** Every fragment but the last is full. */
  lemma {:induction false} FragmentIsFull(buffer: seq<byte>, mss: pos32, count: nat, stream: bool, i: nat)
    requires Needs(|buffer|, mss, count) && i < count <= 255
    ensures |Fragments(buffer, mss, count, stream)[i].data| <= mss
    ensures i < count - 1 ==> |Fragments(buffer, mss, count, stream)[i].data| == mss
    decreases count
  {
    hide Fragments;
    FirstFragment(buffer, mss, count, stream);
    assert (count - 1) * mss == (count - 2) * mss + mss && count * mss == (count - 1) * mss + mss;
    if count > 1 { MulNonNegative(count - 2, mss); }
    if i > 0 { FragmentIsFull(buffer[mss..], mss, count - 1, stream, i - 1); }
  }

  /** All segments from position `from` on are full, except perhaps the last. */
  ghost predicate FullFrom(q: seq<Segment>, from: int, mss: int) {
    forall i :: 0 <= i < |q| - 1 && from <= i ==> |q[i].data| >= mss
  }

  lemma FragmentsFull(buffer: seq<byte>, mss: pos32, stream: bool)
    requires FragmentCount(|buffer|, mss) <= 255
    ensures var fs := Fragments(buffer, mss, FragmentCount(|buffer|, mss), stream);
            fs != [] && FullFrom(fs, 0, mss) && forall i :: 0 <= i < |fs| ==> |fs[i].data| <= mss
  {
    hide Fragments, FragmentCount, Needs;
    CountIsNeeded(|buffer|, mss);
    var count := FragmentCount(|buffer|, mss);
    var fs := Fragments(buffer, mss, count, stream);
    assert count > 0 by { SomeFragment(|buffer|, mss); }
    forall i | 0 <= i < |fs| ensures |fs[i].data| <= mss && (i < |fs| - 1 ==> |fs[i].data| >= mss) {
      FragmentIsFull(buffer, mss, count, stream, i);
    }
  }

  lemma SomeFragment(n: nat, mss: pos32)
    ensures FragmentCount(n, mss) > 0
  {
    CountIsNeeded(n, mss);
  }

  /** The bytes that stream mode has to find new segments for. */
  ghost function Overflow(q: seq<Segment>, n: nat, mss: pos32, stream: bool): int {
    if stream && q != [] then Max(0, n - Max(0, mss - |q[|q|-1].data|)) else n
  }

  /** Send refuses nothing, and more than 255 segments, and only that; in stream mode what
      fits the last waiting segment does not count. */
  lemma SendRefuses(q: seq<Segment>, buffer: seq<byte>, mss: pos32, stream: bool)
    ensures var code, rest := Enqueue(q, buffer, mss, stream).code, Overflow(q, |buffer|, mss, stream);
            && (code == -1 <==> buffer == [])
            && (code == -2 <==> buffer != [] && rest > 255 * mss)
            && (code == 0 <==> buffer != [] && rest <= 255 * mss)
  {
    hide Fragments, FragmentCount;
    var x := Extension(q, |buffer|, mss, stream);
    MoreThan255(|buffer| - x, mss);
  }

  lemma MoreThan255(n: nat, mss: pos32)
    ensures FragmentCount(n, mss) > 255 <==> n > 255 * mss
  {
    var c := FragmentCount(n, mss);
    CountIsNeeded(n, mss);
    if c > 255 { MulLe(255, c - 1, mss); } else { MulLe(c, 255, mss); }
  }

  /** An accepted Send leaves no room behind: in message mode all its fragments but the
      last are full, behind what waited; in stream mode the segment that waited last is
      filled first, and all from there on but the last are full. */
  lemma SendPacks(q: seq<Segment>, buffer: seq<byte>, mss: pos32, stream: bool)
    requires Enqueue(q, buffer, mss, stream).code == 0
    ensures var q' := Enqueue(q, buffer, mss, stream).queue;
            && |q| <= |q'| && FullFrom(q', if stream then |q| - 1 else |q|, mss)
            && (forall i :: |q| <= i < |q'| ==> |q'[i].data| <= mss)
            && (!stream ==> |q'| > |q| && q'[..|q|] == q)
            && (stream && q != [] ==> q'[..|q| - 1] == q[..|q| - 1] && |q'[|q| - 1].data| <= Max(mss, |q[|q| - 1].data|))
  {
    hide Fragments, FragmentCount;
    var x := Extension(q, |buffer|, mss, stream);
    var rest, q1 := buffer[x..], Extended(q, buffer[..x]);
    var q' := Enqueue(q, buffer, mss, stream).queue;
    if !(stream && rest == []) {
      FragmentsFull(rest, mss, stream);
      var fs := Fragments(rest, mss, FragmentCount(|rest|, mss), stream);
      assert q' == q1 + fs;
      assert forall i :: |q| <= i < |q'| ==> q'[i] == fs[i - |q|];
      assert forall i :: 0 <= i < |q| ==> q'[i] == q1[i];
    }
  }
}
