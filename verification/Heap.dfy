/** Binary min-heaps kept in a slice, sifted in place.

    The code compares elements with `less`; the proofs use a `rank` with which
    `less` agrees on the elements at hand.  For circular sequence numbers such a
    rank exists only inside a window. */
module Heap {
  ghost predicate Agrees<T(!new)>(less: (T, T) -> bool, rank: T -> int, s: multiset<T>) {
    forall a, b :: a in s && b in s ==> (less(a, b) <==> rank(a) < rank(b))
  }

  function Parent(i: int): int { (i - 1) / 2 }

  /** Element i is no smaller than its parent. */
  ghost predicate Ordered<T>(h: seq<T>, rank: T -> int, i: int) {
    0 < i < |h| ==> rank(h[Parent(i)]) <= rank(h[i])
  }

  ghost predicate IsHeap<T>(h: seq<T>, rank: T -> int) {
    forall i :: Ordered(h, rank, i)
  }

  /** Element i, a child of j, is no smaller than the parent of j. */
  ghost predicate SkipOrdered<T>(h: seq<T>, rank: T -> int, i: int, j: int) {
    0 < i < |h| && Parent(i) == j && 0 < j ==> rank(h[Parent(j)]) <= rank(h[i])
  }

  /** A heap except that h[j] may be smaller than its parent. */
  ghost predicate HeapBut<T>(h: seq<T>, rank: T -> int, j: nat) {
    && (forall i :: i != j ==> Ordered(h, rank, i))
    && (forall i :: SkipOrdered(h, rank, i, j))
  }

  /** A heap except that h[j] may be larger than its children. */
  ghost predicate HeapAbove<T>(h: seq<T>, rank: T -> int, j: nat) {
    && (forall i :: Parent(i) != j ==> Ordered(h, rank, i))
    && (forall i :: SkipOrdered(h, rank, i, j))
  }

  /** The root of a heap is a minimum. */
  lemma {:induction false} RootIsLeast<T>(h: seq<T>, rank: T -> int, i: nat)
    requires IsHeap(h, rank) && i < |h|
    ensures rank(h[0]) <= rank(h[i])
  {
    if i > 0 {
      assert Ordered(h, rank, i);
      RootIsLeast(h, rank, Parent(i));
    }
  }

  lemma SwapKeepsElements<T>(h: seq<T>, i: nat, j: nat)
    requires i < |h| && j < |h|
    ensures multiset(Swapped(h, i, j)) == multiset(h)
  {
    var m := h[i := h[j]];
    assert multiset(m) == multiset(h)[h[i] := multiset(h)[h[i]] - 1][h[j] := multiset(h)[h[i] := multiset(h)[h[i]] - 1][h[j]] + 1];
  }

  function Swapped<T>(h: seq<T>, i: nat, j: nat): seq<T>
    requires i < |h| && j < |h|
  {
    h[i := h[j]][j := h[i]]
  }

  /** Swapping with the parent moves the exception up. */
  lemma SiftUp<T>(s: seq<T>, rank: T -> int, j: nat)
    requires HeapBut(s, rank, j) && 0 < j < |s| && rank(s[j]) < rank(s[Parent(j)])
    ensures HeapBut(Swapped(s, j, Parent(j)), rank, Parent(j))
  {
    var p := Parent(j);
    var t := Swapped(s, j, p);
    forall i | i != p ensures Ordered(t, rank, i) {
      if 0 < i < |s| {
        assert i != j ==> Ordered(s, rank, i);
        assert SkipOrdered(s, rank, i, j);
      }
    }
    forall i ensures SkipOrdered(t, rank, i, p) {
      if 0 < i < |s| && 0 < p {
        assert Ordered(s, rank, p);
        assert i != j ==> Ordered(s, rank, i);
      }
    }
  }

  /** Swapping with the smallest child moves the exception down. */
  lemma SiftDown<T>(s: seq<T>, rank: T -> int, i: nat, m: nat)
    requires HeapAbove(s, rank, i) && 0 < m < |s| && Parent(m) == i
    requires rank(s[m]) < rank(s[i])
    requires forall c :: 0 < c < |s| && Parent(c) == i ==> rank(s[m]) <= rank(s[c])
    ensures HeapAbove(Swapped(s, i, m), rank, m)
  {
    var t := Swapped(s, i, m);
    forall c | Parent(c) != m ensures Ordered(t, rank, c) {
      if 0 < c < |s| {
        assert Parent(c) != i ==> Ordered(s, rank, c);
        assert SkipOrdered(s, rank, m, i);
      }
    }
    forall c ensures SkipOrdered(t, rank, c, m) {
      if 0 < c < |s| && Parent(c) == m { assert Ordered(s, rank, c); }
    }
  }

  method Push<T(!new)>(h: seq<T>, x: T, less: (T, T) -> bool, ghost rank: T -> int) returns (s: seq<T>)
    requires IsHeap(h, rank) && Agrees(less, rank, multiset(h) + multiset{x})
    ensures IsHeap(s, rank) && multiset(s) == multiset(h) + multiset{x}
  {
    s := h + [x];
    var i := |s| - 1;
    Appended(h, x, rank);
    while i > 0
      invariant 0 <= i < |s|
      invariant multiset(s) == multiset(h) + multiset{x}
      invariant HeapBut(s, rank, i)
    {
      var p := Parent(i);
      assert s[i] in multiset(s) && s[p] in multiset(s);
      if !less(s[i], s[p]) {
        assert Ordered(s, rank, i);
        break;
      }
      SiftUp(s, rank, i);
      SwapKeepsElements(s, i, p);
      s, i := Swapped(s, i, p), p;
    }
  }

  lemma Appended<T>(h: seq<T>, x: T, rank: T -> int)
    requires IsHeap(h, rank)
    ensures HeapBut(h + [x], rank, |h|) && multiset(h + [x]) == multiset(h) + multiset{x}
  {
    forall i | i != |h| ensures Ordered(h + [x], rank, i) { assert Ordered(h, rank, i); }
  }

  /** The smallest of element i and its children. */
  method SmallestChild<T(!new)>(s: seq<T>, i: nat, less: (T, T) -> bool, ghost rank: T -> int) returns (m: nat)
    requires i < |s| && Agrees(less, rank, multiset(s))
    ensures m == i || (m < |s| && Parent(m) == i && rank(s[m]) < rank(s[i]))
    ensures forall c :: c == i || (0 < c < |s| && Parent(c) == i) ==> rank(s[m]) <= rank(s[c])
  {
    var l := 2 * i + 1;
    m := i;
    assert s[i] in multiset(s);
    if l < |s| {
      assert s[l] in multiset(s);
      if less(s[l], s[m]) { m := l; }
    }
    var r := l + 1;
    if r < |s| {
      assert s[r] in multiset(s);
      if less(s[r], s[m]) { m := r; }
    }
  }

  method Pop<T(!new)>(h: seq<T>, less: (T, T) -> bool, ghost rank: T -> int) returns (top: T, s: seq<T>)
    requires h != [] && IsHeap(h, rank) && Agrees(less, rank, multiset(h))
    ensures IsHeap(s, rank) && top == h[0] && multiset(h) == multiset(s) + multiset{top}
    ensures forall i :: 0 <= i < |h| ==> rank(top) <= rank(h[i])
  {
    var n := |h| - 1;
    top := h[0];
    forall i | 0 <= i < |h| ensures rank(top) <= rank(h[i]) { RootIsLeast(h, rank, i); }
    s := h[0 := h[n]][..n];
    PopElements(h);
    Cut(h, rank);
    var i := 0;
    while i < n
      invariant |s| == n && 0 <= i
      invariant multiset(h) == multiset(s) + multiset{top}
      invariant HeapAbove(s, rank, i)
    {
      var m := SmallestChild(s, i, less, rank);
      if m == i {
        break;
      }
      SiftDown(s, rank, i, m);
      SwapKeepsElements(s, i, m);
      s, i := Swapped(s, i, m), m;
    }
    forall c ensures Ordered(s, rank, c) {
      assert Parent(c) != i ==> Ordered(s, rank, c);
    }
  }

  lemma Cut<T>(h: seq<T>, rank: T -> int)
    requires h != [] && IsHeap(h, rank)
    ensures HeapAbove(h[0 := h[|h|-1]][..|h|-1], rank, 0)
  {
    var s := h[0 := h[|h|-1]][..|h|-1];
    forall i | Parent(i) != 0 ensures Ordered(s, rank, i) { assert Ordered(h, rank, i); }
  }

  lemma PopElements<T>(h: seq<T>)
    requires h != []
    ensures multiset(h) == multiset(h[0 := h[|h|-1]][..|h|-1]) + multiset{h[0]}
  {
    var n := |h| - 1;
    if n > 0 {
      assert h == [h[0]] + h[1..n] + [h[n]];
      assert h[0 := h[n]][..n] == [h[n]] + h[1..n];
    } else {
      assert h == [h[0]];
    }
  }
}
