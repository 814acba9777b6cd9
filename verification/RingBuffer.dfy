/** The ring buffer behind the send and receive queues: a circular array that
    grows, proved to behave like a sequence. */
module Ring {
  import opened Facts

  const RINGBUFFER_MIN: int := 8
  const RINGBUFFER_EXP: int := 1024

  function NewSize(size: nat): (n: nat)
    ensures n > size
  {
    if size < RINGBUFFER_MIN then RINGBUFFER_MIN
    else if size < RINGBUFFER_EXP then size * 2
    else size + (size + 9) / 10
  }

  /** What a traversal leaves: each element is replaced by the first component,
      and the traversal ends where the second is false. */
  function Visited<T>(s: seq<T>, f: T -> (T, bool)): (r: seq<T>)
    ensures |r| == |s|
  {
    if s == [] then []
    else
      var (x, more) := f(s[0]);
      [x] + if more then Visited(s[1..], f) else s[1..]
  }

  function VisitedReverse<T>(s: seq<T>, f: T -> (T, bool)): (r: seq<T>)
    ensures |r| == |s|
  {
    if s == [] then []
    else
      var (x, more) := f(s[|s| - 1]);
      (if more then VisitedReverse(s[..|s| - 1], f) else s[..|s| - 1]) + [x]
  }

  // ------------------------------------------------ circular slices of a sequence

  /** Slot i lies between head h and tail t, going round. */
  ghost predicate Live(h: nat, t: nat, i: int) {
    if h <= t then h <= i < t else h <= i || i < t
  }

  /** Slots outside the live range hold the zero value. */
  ghost predicate Clean<T>(es: seq<T>, h: nat, t: nat, z: T) {
    forall i :: 0 <= i < |es| && !Live(h, t, i) ==> es[i] == z
  }

  /** The live slots in order. */
  ghost function Window<T>(es: seq<T>, h: nat, t: nat): (w: seq<T>)
    requires h < |es| && t < |es|
    ensures |w| == if h <= t then t - h else |es| - h + t
  {
    if h <= t then es[h..t] else es[h..] + es[..t]
  }

  function Next(i: nat, n: nat): nat { if i + 1 == n then 0 else i + 1 }

  lemma NextIsMod(i: nat, n: nat)
    requires i < n
    ensures (i + 1) % n == Next(i, n)
  {
  }

  /** The slot of the i-th element from the head. */
  function Slot(h: nat, n: nat, i: nat): nat { if h + i >= n then h + i - n else h + i }

  lemma WindowAt<T>(es: seq<T>, h: nat, t: nat, i: nat)
    requires h < |es| && t < |es| && i < |Window(es, h, t)|
    ensures Slot(h, |es|, i) < |es| && Live(h, t, Slot(h, |es|, i)) && Window(es, h, t)[i] == es[Slot(h, |es|, i)]
  {
  }

  lemma WindowPush<T>(es: seq<T>, h: nat, t: nat, v: T, z: T)
    requires h < |es| && t < |es| && Next(t, |es|) != h && Clean(es, h, t, z)
    ensures Window(es[t := v], h, Next(t, |es|)) == Window(es, h, t) + [v] && Clean(es[t := v], h, Next(t, |es|), z)
  {
  }

  lemma WindowPop<T>(es: seq<T>, h: nat, t: nat, z: T)
    requires h < |es| && t < |es| && h != t && Clean(es, h, t, z)
    ensures [es[h]] + Window(es[h := z], Next(h, |es|), t) == Window(es, h, t) && Clean(es[h := z], Next(h, |es|), t, z)
  {
  }

  lemma WindowAssign<T>(es: seq<T>, h: nat, t: nat, i: nat, v: T, z: T)
    requires h < |es| && t < |es| && i < |Window(es, h, t)| && Clean(es, h, t, z)
    ensures var j := Slot(h, |es|, i);
            j < |es| && Window(es[j := v], h, t) == Window(es, h, t)[i := v] && Clean(es[j := v], h, t, z)
  {
    WindowAt(es, h, t, i);
    var w, w' := Window(es, h, t), Window(es[Slot(h, |es|, i) := v], h, t);
    forall k | 0 <= k < |w| ensures w'[k] == w[i := v][k] {
      WindowAt(es, h, t, k);
      WindowAt(es[Slot(h, |es|, i) := v], h, t, k);
    }
  }

  /** The slots of the first m elements are cleared. */
  ghost predicate Dropped<T>(es: seq<T>, es': seq<T>, h: nat, m: nat, z: T) {
    |es'| == |es| && forall i :: 0 <= i < |es| ==> es'[i] == if Live(h, Slot(h, |es|, m), i) then z else es[i]
  }

  lemma DropClean<T>(es: seq<T>, es': seq<T>, h: nat, t: nat, m: nat, z: T)
    requires h < |es| && t < |es| && m < |Window(es, h, t)| && Clean(es, h, t, z) && Dropped(es, es', h, m, z)
    ensures |es'| == |es| && Clean(es', Slot(h, |es|, m), t, z)
  {
  }

  lemma DropAt<T>(es: seq<T>, es': seq<T>, h: nat, t: nat, m: nat, z: T, k: nat)
    requires h < |es| && t < |es| && m + k < |Window(es, h, t)| && Dropped(es, es', h, m, z)
    ensures Slot(h, |es|, m) < |es| && |Window(es', Slot(h, |es|, m), t)| == |Window(es, h, t)| - m
    ensures Window(es', Slot(h, |es|, m), t)[k] == Window(es, h, t)[m + k]
  {
    hide Window;
    WindowAt(es', Slot(h, |es|, m), t, k);
    WindowAt(es, h, t, m + k);
  }

  /** Dropping m elements: their slots are cleared and the head moves. */
  lemma WindowDrop<T>(es: seq<T>, es': seq<T>, h: nat, t: nat, m: nat, z: T)
    requires h < |es| && t < |es| && m < |Window(es, h, t)| && Clean(es, h, t, z) && Dropped(es, es', h, m, z)
    ensures |es'| == |es| && Slot(h, |es|, m) < |es|
    ensures Window(es', Slot(h, |es|, m), t) == Window(es, h, t)[m..] && Clean(es', Slot(h, |es|, m), t, z)
  {
    hide Window, Clean, Dropped;
    DropClean(es, es', h, t, m, z);
    DropAt(es, es', h, t, m, z, 0);
    var w, w' := Window(es, h, t), Window(es', Slot(h, |es|, m), t);
    forall k | 0 <= k < |w'| ensures w'[k] == w[m..][k] { DropAt(es, es', h, t, m, z, k); }
    assert w' == w[m..];
  }

  /** The larger array that starts with the live slots of es, in order. */
  ghost predicate Unrolled<T>(es: seq<T>, h: nat, t: nat, b: seq<T>, z: T)
    requires h < |es| && t < |es|
  {
    |b| > |es| && if h < t then forall i :: 0 <= i < |b| ==> b[i] == if i < t - h then es[h + i] else z
                  else forall i :: 0 <= i < |b| ==> b[i] == if i < |es| - h then es[h + i] else if i < |es| - h + t then es[i - (|es| - h)] else z
  }

  lemma UnrolledWindow<T>(es: seq<T>, h: nat, t: nat, b: seq<T>, z: T)
    requires h < |es| && t < |es| && Clean(es, h, t, z) && Unrolled(es, h, t, b, z)
    ensures var n := |Window(es, h, t)|; Window(b, 0, n) == Window(es, h, t) && Clean(b, 0, n, z)
  {
  }

  // ------------------------------------------------------------------ traversals

  /** A forward traversal of `was` that now reads `now` has passed k elements. */
  ghost predicate Passed<T>(was: seq<T>, now: seq<T>, k: nat, f: T -> (T, bool)) {
    && |now| == |was| && k <= |was| && now[k..] == was[k..]
    && Visited(was, f) == now[..k] + Visited(was[k..], f)
  }

  lemma VisitedTail<T>(was: seq<T>, k: nat, f: T -> (T, bool))
    requires k < |was|
    ensures Visited(was[k..], f) == [f(was[k]).0] + if f(was[k]).1 then Visited(was[k + 1..], f) else was[k + 1..]
  {
    assert was[k..][1..] == was[k + 1..];
  }

  lemma PassOne<T>(was: seq<T>, now: seq<T>, k: nat, f: T -> (T, bool))
    requires k < |now| && Passed(was, now, k, f)
    ensures var (x, more) := f(now[k]);
            if more then Passed(was, now[k := x], k + 1, f) else now[k := x] == Visited(was, f)
  {
    hide Visited;
    var (x, more) := f(now[k]);
    var next := now[k := x];
    assert now[k..][0] == was[k..][0];
    var rest := if more then Visited(was[k + 1..], f) else was[k + 1..];
    VisitedTail(was, k, f);
    Assoc(now[..k], [x], rest);
    assert next[..k + 1] == now[..k] + [x];
    assert next[k + 1..] == now[k..][1..] == was[k..][1..] == was[k + 1..];
    assert next == next[..k + 1] + next[k + 1..];
  }

  /** A backward traversal has passed everything from k on. */
  ghost predicate PassedReverse<T>(was: seq<T>, now: seq<T>, k: nat, f: T -> (T, bool)) {
    && |now| == |was| && k <= |was| && now[..k] == was[..k]
    && VisitedReverse(was, f) == VisitedReverse(was[..k], f) + now[k..]
  }

  lemma PassOneReverse<T>(was: seq<T>, now: seq<T>, k: nat, f: T -> (T, bool))
    requires k < |now| && PassedReverse(was, now, k + 1, f)
    ensures var (x, more) := f(now[k]);
            if more then PassedReverse(was, now[k := x], k, f) else now[k := x] == VisitedReverse(was, f)
  {
    var (x, more) := f(now[k]);
    var next := now[k := x];
    assert now[..k + 1][k] == was[..k + 1][k] == was[k];
    assert was[..k + 1][..k] == was[..k] == next[..k];
    assert next[k..] == [x] + now[k + 1..];
    assert next == next[..k] + next[k..];
  }

  class RingBuffer<T(0)> {
    var head: nat
    var tail: nat
    var elements: array<T>
    /** The zero value of T. */
    const zero: T

    ghost predicate Valid()
      reads this, elements
    {
      head < elements.Length && tail < elements.Length && Clean(elements[..], head, tail, zero)
    }

    /** The elements, oldest first. */
    ghost function Contents(): seq<T>
      requires Valid()
      reads this, elements
    {
      Window(elements[..], head, tail)
    }

    constructor (size: int, zero: T)
      ensures Valid() && Contents() == [] && fresh(elements)
      ensures elements.Length == if size <= RINGBUFFER_MIN then RINGBUFFER_MIN else size
      ensures this.zero == zero
    {
      var n := if size <= RINGBUFFER_MIN then RINGBUFFER_MIN else size;
      this.zero := zero;
      head, tail := 0, 0;
      elements := new T[n](_ => zero);
    }

    method Len() returns (n: nat)
      requires Valid()
      ensures n == |Contents()|
    {
      if head <= tail {
        return tail - head;
      }
      return elements.Length - head + tail;
    }

    method IsEmpty() returns (b: bool)
      requires Valid()
      ensures b <==> Contents() == []
    {
      b := head == tail;
      assert Contents() == [] <==> |Contents()| == 0;
    }

    method MaxLen() returns (n: nat)
      requires Valid()
      ensures n == elements.Length - 1 && |Contents()| <= n
    {
      n := elements.Length - 1;
    }

    method IsFull() returns (b: bool)
      requires Valid()
      ensures b <==> |Contents()| == elements.Length - 1
    {
      b := (tail + 1) % elements.Length == head;
      NextIsMod(tail, elements.Length);
    }

    /** Clears the slots from..to. */
    method Zero(from: nat, to: nat)
      requires from <= to <= elements.Length
      modifies elements
      ensures forall i :: 0 <= i < elements.Length ==> elements[i] == if from <= i < to then zero else old(elements[i])
    {
      var i := from;
      while i < to
        invariant from <= i <= to
        invariant forall j :: 0 <= j < elements.Length ==> elements[j] == if from <= j < i then zero else old(elements[j])
      {
        elements[i] := zero;
        i := i + 1;
      }
    }

    /** Copies `n` slots from `from` on to `dst` at `to`. */
    method CopyTo(dst: array<T>, to: nat, from: nat, n: nat)
      requires from + n <= elements.Length && to + n <= dst.Length && dst != elements
      modifies dst
      ensures forall i :: 0 <= i < dst.Length ==> dst[i] == if to <= i < to + n then elements[from + i - to] else old(dst[i])
    {
      var k := 0;
      while k < n
        invariant 0 <= k <= n
        invariant forall i :: 0 <= i < dst.Length ==> dst[i] == if to <= i < to + k then elements[from + i - to] else old(dst[i])
      {
        dst[to + k] := elements[from + k];
        k := k + 1;
      }
    }

    /** Copies the live slots to the front of a larger array. */
    method Unroll(bigger: array<T>)
      requires head < elements.Length && tail < elements.Length < bigger.Length && bigger != elements
      requires forall i :: 0 <= i < bigger.Length ==> bigger[i] == zero
      modifies bigger
      ensures Unrolled(elements[..], head, tail, bigger[..], zero)
    {
      if head < tail {
        CopyTo(bigger, 0, head, tail - head);
      } else {
        CopyTo(bigger, 0, head, elements.Length - head);
        CopyTo(bigger, elements.Length - head, 0, tail);
      }
    }

    method Grow()
      requires Valid()
      modifies this
      ensures Valid() && Contents() == old(Contents())
      ensures fresh(elements) && elements.Length == NewSize(old(elements.Length)) > |Contents()| + 1
    {
      hide Window, Clean;
      var n := Len();
      var bigger := new T[NewSize(elements.Length)](_ => zero);
      Unroll(bigger);
      UnrolledWindow(elements[..], head, tail, bigger[..], zero);
      head, tail, elements := 0, n, bigger;
    }

    method Push(v: T)
      requires Valid()
      modifies this, elements
      ensures Valid() && Contents() == old(Contents()) + [v]
      ensures elements == old(elements) || fresh(elements)
    {
      var full := IsFull();
      if full {
        Grow();
      }
      WindowPush(elements[..], head, tail, v, zero);
      NextIsMod(tail, elements.Length);
      ghost var es := elements[..];
      elements[tail] := v;
      assert elements[..] == es[tail := v];
      tail := (tail + 1) % elements.Length;
    }

    method Pop() returns (v: T, ok: bool)
      requires Valid()
      modifies this, elements
      ensures Valid() && elements == old(elements)
      ensures ok <==> old(Contents()) != []
      ensures ok ==> [v] + Contents() == old(Contents())
      ensures !ok ==> v == zero && Contents() == old(Contents())
    {
      var n := Len();
      if n == 0 {
        return zero, false;
      }
      WindowPop(elements[..], head, tail, zero);
      NextIsMod(head, elements.Length);
      ghost var es := elements[..];
      v := elements[head];
      elements[head] := zero;
      assert elements[..] == es[head := zero];
      head := (head + 1) % elements.Length;
      ok := true;
    }

    method Peek() returns (v: T, ok: bool)
      requires Valid()
      ensures ok <==> Contents() != []
      ensures v == if ok then Contents()[0] else zero
    {
      var n := Len();
      if n == 0 {
        return zero, false;
      }
      return elements[head], true;
    }

    method Clear()
      requires Valid()
      modifies this, elements
      ensures Valid() && Contents() == [] && elements == old(elements)
    {
      if head <= tail {
        Zero(head, tail);
      } else {
        Zero(head, elements.Length);
        Zero(0, tail);
      }
      head, tail := 0, 0;
    }

    method Discard(n: int) returns (m: nat)
      requires Valid()
      modifies this, elements
      ensures Valid() && elements == old(elements)
      ensures m == if n <= 0 then 0 else if n <= |old(Contents())| then n else |old(Contents())|
      ensures Contents() == old(Contents())[m..]
    {
      hide Window, Clean;
      if n <= 0 {
        return 0;
      }
      var len := Len();
      m := if n <= len then n else len;
      if m == len {
        Clear();
        return;
      }
      var end := head + m;
      ghost var es := elements[..];
      if end < elements.Length {
        Zero(head, end);
        WindowDrop(es, elements[..], head, tail, m, zero);
        head := end;
      } else {
        Zero(head, elements.Length);
        Zero(0, end - elements.Length);
        WindowDrop(es, elements[..], head, tail, m, zero);
        head := end - elements.Length;
      }
    }

    /** At hands out a pointer to the i-th element; reading through it. */
    method At(i: nat) returns (v: T)
      requires Valid() && i < |Contents()|
      ensures v == Contents()[i]
    {
      WindowAt(elements[..], head, tail, i);
      var j := head + i;
      if j >= elements.Length {
        j := j - elements.Length;
      }
      return elements[j];
    }

    /** Writing through the pointer that At hands out. */
    method Assign(i: nat, v: T)
      requires Valid() && i < |Contents()|
      modifies elements
      ensures Valid() && Contents() == old(Contents())[i := v]
    {
      WindowAssign(elements[..], head, tail, i, v, zero);
      ghost var es := elements[..];
      var j := head + i;
      if j >= elements.Length {
        j := j - elements.Length;
      }
      elements[j] := v;
      assert elements[..] == es[j := v];
    }

    /** Hands slot i, which holds the k-th element, to the callback. */
    method Visit(i: nat, f: T -> (T, bool), ghost was: seq<T>, ghost k: nat) returns (more: bool)
      requires Valid() && k < |Contents()| && i == Slot(head, elements.Length, k) && Passed(was, Contents(), k, f)
      modifies elements
      ensures Valid() && |Contents()| == |was|
      ensures more ==> Passed(was, Contents(), k + 1, f)
      ensures !more ==> Contents() == Visited(was, f)
    {
      ghost var es := elements[..];
      WindowAt(es, head, tail, k);
      var (x, go) := f(elements[i]);
      WindowAssign(es, head, tail, k, x, zero);
      PassOne(was, Contents(), k, f);
      elements[i] := x;
      assert elements[..] == es[i := x];
      more := go;
    }

    /** Visits the slots from..to upwards; the first holds element k. */
    method VisitUp(from: nat, to: nat, f: T -> (T, bool), ghost was: seq<T>, ghost k: nat) returns (more: bool)
      requires Valid() && from <= to <= elements.Length && k + to - from <= |Contents()| && Passed(was, Contents(), k, f)
      requires from == head + k || from + elements.Length == head + k
      modifies elements
      ensures Valid() && |Contents()| == |was|
      ensures more ==> Passed(was, Contents(), k + to - from, f)
      ensures !more ==> Contents() == Visited(was, f)
    {
      hide Passed, Visited, Clean;
      more := true;
      assert |Contents()| == |was| by { PassedLength(was, Contents(), k, f); }
      var i := from;
      while i < to
        invariant from <= i <= to && Valid() && more && |Contents()| == |was| && Passed(was, Contents(), k + i - from, f)
      {
        more := Visit(i, f, was, k + i - from);
        if !more {
          return;
        }
        i := i + 1;
      }
    }

    /** ForEach: the callback sees a pointer, so it may replace the element, and
        stops the traversal by returning false. */
    method ForEach(f: T -> (T, bool))
      requires Valid()
      modifies elements
      ensures Valid() && Contents() == Visited(old(Contents()), f)
    {
      hide Passed, Visited, Clean;
      ghost var was := Contents();
      PassedEnds(was, was, f);
      var n := Len();
      if n == 0 {
        return;
      }
      var more;
      if head < tail {
        more := VisitUp(head, tail, f, was, 0);
      } else {
        more := VisitUp(head, elements.Length, f, was, 0);
        if more {
          more := VisitUp(0, tail, f, was, elements.Length - head);
        }
      }
      PassedEnds(was, Contents(), f);
    }

    method VisitReverse(i: nat, f: T -> (T, bool), ghost was: seq<T>, ghost k: nat) returns (more: bool)
      requires Valid() && k < |Contents()| && i == Slot(head, elements.Length, k) && PassedReverse(was, Contents(), k + 1, f)
      modifies elements
      ensures Valid() && |Contents()| == |was|
      ensures more ==> PassedReverse(was, Contents(), k, f)
      ensures !more ==> Contents() == VisitedReverse(was, f)
    {
      ghost var es := elements[..];
      WindowAt(es, head, tail, k);
      var (x, go) := f(elements[i]);
      WindowAssign(es, head, tail, k, x, zero);
      PassOneReverse(was, Contents(), k, f);
      elements[i] := x;
      assert elements[..] == es[i := x];
      more := go;
    }

    /** Visits the slots from..to downwards; the first slot holds element k. */
    method VisitDown(from: nat, to: nat, f: T -> (T, bool), ghost was: seq<T>, ghost k: nat) returns (more: bool)
      requires Valid() && from <= to <= elements.Length && k + to - from <= |Contents()|
      requires PassedReverse(was, Contents(), k + to - from, f) && (from == head + k || from + elements.Length == head + k)
      modifies elements
      ensures Valid() && |Contents()| == |was|
      ensures more ==> PassedReverse(was, Contents(), k, f)
      ensures !more ==> Contents() == VisitedReverse(was, f)
    {
      hide PassedReverse, VisitedReverse, Clean;
      more := true;
      assert |Contents()| == |was| by { PassedReverseLength(was, Contents(), k + to - from, f); }
      var i := to;
      while i > from
        invariant from <= i <= to && Valid() && more && |Contents()| == |was| && PassedReverse(was, Contents(), k + i - from, f)
      {
        i := i - 1;
        more := VisitReverse(i, f, was, k + i - from);
        if !more {
          return;
        }
      }
    }

    method ForEachReverse(f: T -> (T, bool))
      requires Valid()
      modifies elements
      ensures Valid() && Contents() == VisitedReverse(old(Contents()), f)
    {
      hide PassedReverse, VisitedReverse, Clean;
      ghost var was := Contents();
      PassedReverseEnds(was, was, f);
      var n := Len();
      if n == 0 {
        return;
      }
      var more;
      if head < tail {
        more := VisitDown(head, tail, f, was, 0);
      } else {
        more := VisitDown(0, tail, f, was, elements.Length - head);
        if more {
          more := VisitDown(head, elements.Length, f, was, 0);
        }
      }
      PassedReverseEnds(was, Contents(), f);
    }
  }

  lemma PassedLength<T>(was: seq<T>, now: seq<T>, k: nat, f: T -> (T, bool))
    requires Passed(was, now, k, f)
    ensures |now| == |was|
  {
  }

  lemma PassedReverseLength<T>(was: seq<T>, now: seq<T>, k: nat, f: T -> (T, bool))
    requires PassedReverse(was, now, k, f)
    ensures |now| == |was|
  {
  }

  lemma PassedEnds<T>(was: seq<T>, now: seq<T>, f: T -> (T, bool))
    ensures Passed(was, was, 0, f)
    ensures Passed(was, now, |was|, f) ==> now == Visited(was, f)
  {
    assert was[..0] == [] && was[0..] == was;
    if Passed(was, now, |was|, f) { assert now[..|was|] == now && was[|was|..] == []; }
  }

  lemma PassedReverseEnds<T>(was: seq<T>, now: seq<T>, f: T -> (T, bool))
    ensures PassedReverse(was, was, |was|, f)
    ensures PassedReverse(was, now, 0, f) ==> now == VisitedReverse(was, f)
  {
    assert was[..|was|] == was && was[|was|..] == [];
    if PassedReverse(was, now, 0, f) { assert now[0..] == now && was[..0] == []; }
  }

  lemma {:induction false} VisitedForward<T(!new)>(s: seq<T>, f: T -> (T, bool), i: nat)
    requires i < |s| && forall x :: f(x).1
    ensures Visited(s, f)[i] == f(s[i]).0
    decreases |s|
  {
    hide VisitedReverse;
    if i > 0 { VisitedForward(s[1..], f, i - 1); }
  }

  lemma {:induction false} VisitedBackward<T(!new)>(s: seq<T>, f: T -> (T, bool), i: nat)
    requires i < |s| && forall x :: f(x).1
    ensures VisitedReverse(s, f)[i] == f(s[i]).0
    decreases |s|
  {
    hide Visited;
    if i < |s| - 1 { VisitedBackward(s[..|s| - 1], f, i); }
  }

  /** Both traversals visit every element when the callback never stops them. */
  lemma VisitedAll<T(!new)>(s: seq<T>, f: T -> (T, bool), i: nat)
    requires i < |s| && forall x :: f(x).1
    ensures Visited(s, f)[i] == f(s[i]).0 && VisitedReverse(s, f)[i] == f(s[i]).0
  {
    hide Visited, VisitedReverse;
    VisitedForward(s, f, i);
    VisitedBackward(s, f, i);
  }

}
