/** The byte-stream session on top of the protocol engine: reading with a buffer of
    any size, and writing in chunks the engine always accepts. */
module Session {
  import opened Serial
  import S = KcpState
  import opened KcpState
  import opened KcpWindows
  import opened WireFormat
  import opened DeliveryRuns
  import opened OutputBuffer
  import opened KcpEngine
  import KcpLoops

  const MAX_PACKET: int := 1472

  // ----------------------------------------------------------------- reading

  datatype ReadResult = ReadResult(k: State, input: seq<byte>, data: seq<byte>, ok: bool)

  /** A read into `room` bytes: what is left of the last message first, then the
      next message, whose tail is kept when the buffer is too small. */
  function Read(k: State, input: seq<byte>, room: nat): ReadResult {
    if input != [] then
      var m := Min(room, |input|);
      ReadResult(k, input[m..], input[..m], true)
    else if S.PeekSize(k.rcv.queue) <= 0 then ReadResult(k, input, [], false)
    else
      var r := S.Recv(k, Max(room, S.PeekSize(k.rcv.queue)));
      var m := Min(room, |r.data|);
      ReadResult(r.k, r.data[m..], r.data[..m], true)
  }

  /** Nothing is lost or reordered between the engine and the reader: a read takes
      no message, or exactly one. */
  lemma ReadConserves(k: State, input: seq<byte>, room: nat)
    ensures var r := Read(k, input, room);
            || (r.k == k && r.data + r.input == input)
            || (exists big: nat :: var m := S.Recv(k, big); r.k == m.k && m.n > 0 && input == [] && r.data + r.input == m.data)
  {
    var r := Read(k, input, room);
    if input == [] && S.PeekSize(k.rcv.queue) > 0 {
      var m := S.Recv(k, Max(room, S.PeekSize(k.rcv.queue)));
      assert r.k == m.k && r.data + r.input == m.data;
    }
  }

  /** A read fails exactly when nothing is left of the last message and no message with
      any bytes can be received; otherwise it gives as much as the buffer holds. */
  lemma ReadGives(k: State, input: seq<byte>, room: nat)
    ensures var r := Read(k, input, room);
            && (r.ok <==> input != [] || exists big: nat :: S.Recv(k, big).n > 0)
            && (r.ok ==> r.data + r.input != [] && |r.data| == Min(room, |r.data + r.input|))
            && (!r.ok ==> r.data == [] && r.input == [] && r.k == k)
  {
    hide S.Recv;
    if S.PeekSize(k.rcv.queue) > 0 { RecvWhole(k, room); }
    forall big: nat ensures S.Recv(k, big).n > 0 ==> S.PeekSize(k.rcv.queue) > 0 { RecvSize(k, big); }
  }

  lemma RecvSize(k: State, room: nat)
    ensures S.Recv(k, room).n > 0 ==> S.PeekSize(k.rcv.queue) > 0
  {
    hide S.PeekSize;
  }

  // ----------------------------------------------------------------- writing

  /** Sends a slice in pieces of at most mss bytes. */
  function SendPieces(k: State, b: seq<byte>): State
    decreases |b|
  {
    if |b| <= k.cfg.mss then S.Send(k, b).k
    else
      var k' := S.Send(k, b[..k.cfg.mss]).k;
      SendPieces(k', b[k.cfg.mss..])
  }

  function WriteAll(k: State, v: seq<seq<byte>>): State {
    if v == [] then k else SendPieces(WriteAll(k, v[..|v|-1]), v[|v|-1])
  }

  lemma WriteNext(k: State, v: seq<seq<byte>>, i: nat)
    requires i < |v|
    ensures WriteAll(k, v[..i + 1]) == SendPieces(WriteAll(k, v[..i]), v[i]) && Join(v[..i + 1]) == Join(v[..i]) + v[i]
  {
    assert v[..i + 1][..i] == v[..i];
  }

  /** A piece of at most mss bytes is always accepted, in either mode. */
  lemma PieceAccepted(k: State, b: seq<byte>)
    requires |b| <= k.cfg.mss
    ensures S.Send(k, b).code == if b == [] then -1 else 0
    ensures Taken(k, b) == |b|
  {
  }

  lemma PieceAppends(k: State, b: seq<byte>)
    requires QueueOk(k.snd.queue) && |b| <= k.cfg.mss
    ensures var k' := S.Send(k, b).k;
            Bytes(k'.snd.queue) == Bytes(k.snd.queue) + b && QueueOk(k'.snd.queue) && k'.cfg == k.cfg
  {
    PieceAccepted(k, b);
    SendAppends(k.snd.queue, b, k.cfg.mss, k.cfg.stream);
    assert b[..|b|] == b;
  }

  lemma {:induction false} PiecesAppend(k: State, b: seq<byte>)
    requires QueueOk(k.snd.queue)
    ensures var k' := SendPieces(k, b);
            Bytes(k'.snd.queue) == Bytes(k.snd.queue) + b && QueueOk(k'.snd.queue) && k'.cfg == k.cfg
    decreases |b|
  {
    hide S.Send;
    if |b| <= k.cfg.mss {
      PieceAppends(k, b);
    } else {
      var mss := k.cfg.mss;
      PieceAppends(k, b[..mss]);
      PiecesAppend(S.Send(k, b[..mss]).k, b[mss..]);
      assert b == b[..mss] + b[mss..];
    }
  }

  /** A write loses nothing: every byte of every slice is queued, in order, in both
      modes, and Send never refuses a piece. */
  lemma {:induction false} WriteAppends(k: State, v: seq<seq<byte>>)
    requires QueueOk(k.snd.queue)
    ensures var k' := WriteAll(k, v);
            Bytes(k'.snd.queue) == Bytes(k.snd.queue) + Join(v) && QueueOk(k'.snd.queue) && k'.cfg == k.cfg
  {
    hide SendPieces, Bytes;
    if v == [] {
      assert Bytes(k.snd.queue) + [] == Bytes(k.snd.queue);
    } else {
      var init := v[..|v|-1];
      WriteAppends(k, init);
      PiecesAppend(WriteAll(k, init), v[|v|-1]);
      assert Bytes(k.snd.queue) + (Join(init) + v[|v|-1]) == Bytes(k.snd.queue) + Join(init) + v[|v|-1];
    }
  }

  // ---------------------------------------------- what Send does when it refuses

  /** Send that refuses leaves the queue alone, except in this one case: in stream
      mode, when the last queued segment was topped up first and what is left still
      needs more than 255 fragments. */
  lemma RefusedSendChangesQueue(k: State, buffer: seq<byte>)
    ensures S.Send(k, buffer).code != 0 && S.Send(k, buffer).k != k <==>
            && buffer != [] && k.cfg.stream
            && var x := Extension(k.snd.queue, |buffer|, k.cfg.mss, true);
               x > 0 && |buffer| > x && FragmentCount(|buffer| - x, k.cfg.mss) > 255
  {
    var q := k.snd.queue;
    var x := Extension(q, |buffer|, k.cfg.mss, k.cfg.stream);
    if buffer != [] && x > 0 {
      var q' := Extended(q, buffer[..x]);
      assert |q'[|q|-1].data| == |q[|q|-1].data| + x;
    }
  }

  // --------------------------------------------------------------- the session

  class UDPSession {
    var kcp: KCP
    /** What is left of the last message: the reader over recvbuf. */
    var input: seq<byte>
    var recvbuf: array<byte>
    var writeDelay: bool

    // history: the bytes handed to the reader, and the messages they came from
    ghost var read: seq<byte>
    ghost var got: seq<seq<byte>>

    ghost predicate Valid()
      reads this, kcp, kcp.out
    {
      kcp.Valid() && recvbuf != kcp.out.buffer && read + input == Join(got)
    }

    constructor (conv: u32)
      ensures Valid() && kcp.state == S.Fresh(conv) && input == [] && read == [] && fresh(kcp) && fresh(kcp.out) && fresh(recvbuf)
    {
      kcp := new KCP(conv);
      input, writeDelay, read, got := [], false, [], [];
      recvbuf := new byte[MAX_PACKET];
    }

    /** A message that fits goes straight into the caller's buffer. */
    method ReadDirect(b: array<byte>)
      requires Valid() && b != kcp.out.buffer && input == [] && 0 < S.PeekSize(kcp.state.rcv.queue) <= b.Length
      modifies this`read, this`got, kcp, b
      ensures Valid() && kcp.out == old(kcp.out)
      ensures var r, n := S.Recv(old(kcp.state), b.Length), S.PeekSize(old(kcp.state).rcv.queue);
              && kcp.state == r.k && |r.data| == n && b[..n] == r.data
              && read == old(read) + r.data && got == old(got) + [r.data]
    {
      hide Good, Room, S.Recv, S.PeekSize;
      RecvWhole(kcp.state, b.Length);
      ghost var data := S.Recv(kcp.state, b.Length).data;
      var _ := kcp.Recv(b);
      JoinLast(got, data, read);
      read, got := read + data, got + [data];
      assert read + [] == read;
    }

    /** A message that does not fit goes into recvbuf, grown as needed. */
    method FillInput(size: nat)
      requires Valid() && input == [] && 0 < S.PeekSize(kcp.state.rcv.queue) == size
      modifies this`input, this`recvbuf, this`got, kcp, recvbuf
      ensures Valid() && kcp.out == old(kcp.out) && (recvbuf == old(recvbuf) || fresh(recvbuf))
      ensures var r := S.Recv(old(kcp.state), size);
              kcp.state == r.k && input == r.data && |input| == size && read == old(read) && got == old(got) + [input]
    {
      hide Good, Room, S.Recv, S.PeekSize, KCP.Linked;
      if recvbuf.Length < size {
        recvbuf := new byte[size];
      }
      RecvWhole(kcp.state, recvbuf.Length);
      var _ := kcp.Recv(recvbuf);
      input := recvbuf[..size];
      JoinLast(got, input, read);
      got := got + [input];
    }

    /** readLocked: returns false when there is nothing to read. */
    method ReadLocked(b: array<byte>) returns (n: nat, ok: bool)
      requires Valid() && b != kcp.out.buffer && b != recvbuf
      modifies this`input, this`recvbuf, this`read, this`got, kcp, recvbuf, b
      ensures Valid() && kcp.out == old(kcp.out)
      ensures var r := Read(old(kcp.state), old(input), b.Length);
              && kcp.state == r.k && input == r.input && ok == r.ok && n == |r.data| <= b.Length
              && b[..n] == r.data && read == old(read) + r.data
    {
      hide Good, Room, S.Recv, S.PeekSize, Join;
      ok := true;
      if |input| > 0 {
        n := TakeInput(b);
        return;
      }
      var size := kcp.PeekSize();
      if size <= 0 {
        assert read + [] == read;
        return 0, false;
      }
      RecvWhole(kcp.state, b.Length);
      if b.Length >= size {
        ReadDirect(b);
        n := size;
        return;
      }
      FillInput(size);
      n := TakeInput(b);
    }

    /** bytes.Reader.Read on what is left. */
    method TakeInput(b: array<byte>) returns (n: nat)
      requires b != kcp.out.buffer
      modifies this`input, this`read, b
      ensures n == Min(b.Length, |old(input)|) && b[..n] == old(input)[..n] && input == old(input)[n..]
      ensures read == old(read) + b[..n] && read + input == old(read + input)
    {
      n := Min(b.Length, |input|);
      Copy(b, 0, input[..n]);
      assert b[0..n] == b[..n];
      read := read + b[..n];
      assert input == input[..n] + input[n..];
      input := input[n..];
    }

    /** One slice of a write. */
    method SendSlice(b: seq<byte>)
      requires kcp.Valid()
      modifies kcp`snd_queue, kcp`state
      ensures kcp.Valid() && kcp.state == SendPieces(old(kcp.state), b)
    {
      hide Good, Room, S.Send;
      var rest := b;
      while |rest| > kcp.cfg.mss
        invariant kcp.Valid() && SendPieces(kcp.state, rest) == SendPieces(old(kcp.state), b) && kcp.state.cfg == old(kcp.state).cfg
        decreases |rest|
      {
        var _ := kcp.Send(rest[..kcp.cfg.mss]);
        rest := rest[kcp.cfg.mss..];
      }
      var _ := kcp.Send(rest);
    }

    /** The loop of a write over its slices. */
    method SendSlices(v: seq<seq<byte>>) returns (n: nat)
      requires kcp.Valid()
      modifies kcp`snd_queue, kcp`state
      ensures kcp.Valid() && kcp.state == WriteAll(old(kcp.state), v) && n == |Join(v)|
    {
      hide Good, Room, SendPieces, KCP.Linked;
      n := 0;
      var i := 0;
      assert WriteAll(kcp.state, v[..0]) == kcp.state && Join(v[..0]) == [];
      while i < |v|
        invariant 0 <= i <= |v| && kcp.Valid()
        invariant kcp.state == WriteAll(old(kcp.state), v[..i]) && n == |Join(v[..i])|
      {
        WriteNext(old(kcp.state), v, i);
        n := n + |v[i]|;
        SendSlice(v[i]);
        i := i + 1;
      }
      assert v[..i] == v;
    }

    method WaitSnd() returns (n: nat)
      requires kcp.Valid()
      ensures n == |kcp.state.snd.buf| + |kcp.state.snd.queue|
    {
      n := |kcp.snd_buf| + |kcp.snd_queue|;
    }

    /** writeBuffersLocked: refuses when the window is full; otherwise queues every
        byte and flushes when the window has become full or writes are not delayed. */
    method WriteBuffersLocked(v: seq<seq<byte>>, clock: seq<u32>) returns (n: nat, ok: bool)
      requires Valid()
      modifies kcp, kcp.out`sent, kcp.out.buffer
      ensures Valid() && kcp.out == old(kcp.out)
      ensures var k := old(kcp.state);
              var k' := WriteAll(k, v);
              && (ok <==> |k.snd.buf| + |k.snd.queue| < k.cfg.sndWnd)
              && (!ok ==> n == 0 && kcp.state == k && kcp.out.sent == old(kcp.out.sent))
              && (ok ==> n == |Join(v)|)
              && (ok ==> if |k'.snd.buf| + |k'.snd.queue| >= k'.cfg.sndWnd || !writeDelay
                         then var f := S.Flush(k', true, clock); kcp.state == f.k && kcp.out.sent == old(kcp.out.sent) + EncodePackets(f.packets)
                         else kcp.state == k' && kcp.out.sent == old(kcp.out.sent))
    {
      hide Good, Room, S.Flush, WriteAll, EncodePackets;
      var wait := WaitSnd();
      if wait >= kcp.cfg.sndWnd {
        return 0, false;
      }
      ok := true;
      n := SendSlices(v);
      wait := WaitSnd();
      if wait >= kcp.cfg.sndWnd || !writeDelay {
        var _ := kcp.Flush(true, clock);
      }
    }
  }

  lemma JoinLast(got: seq<seq<byte>>, m: seq<byte>, read: seq<byte>)
    requires read + [] == Join(got)
    ensures read + m == Join(got + [m])
  {
    assert (got + [m])[..|got|] == got;
  }

  /** Recv with enough room takes the whole message, and its room does not matter. */
  lemma RecvWhole(k: State, room: nat)
    requires S.PeekSize(k.rcv.queue) > 0
    ensures var size := S.PeekSize(k.rcv.queue);
            && |S.Recv(k, Max(room, size)).data| == size && S.Recv(k, Max(room, size)).n == size
            && S.Recv(k, Max(room, size)) == S.Recv(k, size)
  {
    KcpLoops.PeekIsLength(k.rcv.queue);
    KcpLoops.BytesLen(k.rcv.queue[..MessageEnd(k.rcv.queue)]);
  }
}
