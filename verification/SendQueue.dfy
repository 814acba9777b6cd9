/** The bounded queue of packets between the protocol engine and the workers that
    post-process them: a slice with a moving head, compacted in place. */
module PostQueue {
  const DEV_BACKLOG: int := 2048
  const SEND_QUEUE_KEEP: int := 64

  class SendQueue<T(0)> {
    /** The slice's storage, its length in use and its first live slot. */
    var store: array<T>
    var len: nat
    var head: nat
    const zero: T

    ghost predicate Valid()
      reads this, store
    {
      && head <= len <= store.Length
      && len - head <= DEV_BACKLOG
      && (head == len ==> len == 0 && store.Length <= SEND_QUEUE_KEEP)
      && forall i :: 0 <= i < store.Length && !(head <= i < len) ==> store[i] == zero
    }

    ghost function Contents(): seq<T>
      requires Valid()
      reads this, store
    {
      store[head..len]
    }

    constructor (zero: T)
      ensures Valid() && Contents() == [] && fresh(store) && this.zero == zero
    {
      this.zero := zero;
      len, head := 0, 0;
      store := new T[0];
    }

    /** Moves the live slots to the front and clears what they leave behind. */
    method Compact()
      requires head <= len == store.Length && forall i :: 0 <= i < head ==> store[i] == zero
      modifies this`len, this`head, store
      ensures head == 0 && len == old(len - head)
      ensures store[..len] == old(store[head..len])
      ensures forall i :: len <= i < store.Length ==> store[i] == zero
    {
      var n := len - head;
      var i := 0;
      while i < n
        invariant 0 <= i <= n && head == old(head) && len == old(len)
        invariant forall j :: 0 <= j < i ==> store[j] == old(store[head + j])
        invariant forall j :: i <= j < store.Length ==> store[j] == old(store[j])
      {
        store[i] := store[head + i];
        i := i + 1;
      }
      while i < store.Length
        invariant n <= i <= store.Length
        invariant forall j :: 0 <= j < n ==> store[j] == old(store[head + j])
        invariant forall j :: n <= j < i ==> store[j] == zero
      {
        store[i] := zero;
        i := i + 1;
      }
      len, head := n, 0;
    }

    /** append's reallocation, when the slice is full. */
    method Extend()
      requires len == store.Length && head == 0
      modifies this`store
      ensures fresh(store) && store.Length > len && store[..len] == old(store[..len])
      ensures forall i :: len <= i < store.Length ==> store[i] == zero
    {
      var bigger := new T[2 * len + 1](_ => zero);
      var i := 0;
      while i < len
        invariant 0 <= i <= len && bigger != store && store == old(store)
        invariant bigger[..i] == store[..i]
        invariant forall j :: len <= j < bigger.Length ==> bigger[j] == zero
      {
        bigger[i] := store[i];
        i := i + 1;
      }
      store := bigger;
    }

    /** push appends unless the backlog is full. */
    method Push(r: T) returns (ok: bool)
      requires Valid()
      modifies this, store
      ensures Valid() && (store == old(store) || fresh(store))
      ensures ok <==> |old(Contents())| < DEV_BACKLOG
      ensures Contents() == if ok then old(Contents()) + [r] else old(Contents())
    {
      if len - head >= DEV_BACKLOG {
        return false;
      }
      ghost var was := Contents();
      if head > 0 && len == store.Length {
        Compact();
      }
      if len == store.Length {
        Extend();
      }
      store[len] := r;
      len := len + 1;
      ok := true;
      assert Contents() == was + [r];
    }

    /** pop takes the oldest; a drained queue keeps no oversized storage. */
    method Pop() returns (r: T, ok: bool)
      requires Valid()
      modifies this, store
      ensures Valid() && (store == old(store) || fresh(store))
      ensures ok <==> old(Contents()) != []
      ensures ok ==> [r] + Contents() == old(Contents())
      ensures !ok ==> r == zero && Contents() == old(Contents())
    {
      if head == len {
        return zero, false;
      }
      ghost var was := Contents();
      r := store[head];
      store[head] := zero;
      head := head + 1;
      if head == len {
        len, head := 0, 0;
        if store.Length > SEND_QUEUE_KEEP {
          store := new T[0];
        }
      }
      ok := true;
      assert [r] + Contents() == was;
    }

    method Length() returns (n: nat)
      requires Valid()
      ensures n == |Contents()|
    {
      n := len - head;
    }
  }
}
