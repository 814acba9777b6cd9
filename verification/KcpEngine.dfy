/** The imperative engine: fields updated in place, buffers scanned in loops,
    segments encoded into one reusable buffer.  Every method is proved to compute
    the reference definition of its operation in module KcpState, and the engine
    never writes outside its buffer. */
module KcpEngine {
  import opened Serial
  import S = KcpState
  import opened KcpState
  import opened WireFormat
  import opened KcpWindows
  import opened SegmentHeap
  import opened KcpLoops
  import opened KcpWriter
  import opened KcpFlush
  import opened OutputBuffer

  // ------------------------------------------------- room in the output buffer

  ghost predicate Fit(q: seq<Segment>, room: int) {
    forall i :: 0 <= i < |q| ==> OVERHEAD + |q[i].data| <= room
  }

  /** The encoding buffer has room for an MTU and for every waiting segment. */
  ghost predicate Room(k: State, room: int) {
    k.cfg.mtu <= room && Fit(k.snd.buf, room) && Fit(k.snd.queue, room)
  }

  lemma {:induction false} FragmentsFit(data: seq<byte>, mss: pos32, count: nat, stream: bool)
    requires count <= 255
    ensures Fit(Fragments(data, mss, count, stream), OVERHEAD + mss)
  {
    if count > 0 {
      var rest := data[Min(|data|, mss)..];
      FragmentsFit(rest, mss, count - 1, stream);
      var q, q' := Fragments(data, mss, count, stream), Fragments(rest, mss, count - 1, stream);
      assert q == [q[0]] + q';
    }
  }

  lemma EnqueueFits(q: seq<Segment>, data: seq<byte>, mss: pos32, stream: bool, room: int)
    requires Fit(q, room) && OVERHEAD + mss <= room
    ensures Fit(Enqueue(q, data, mss, stream).queue, room)
  {
    var rest := data[Extension(q, |data|, mss, stream)..];
    if FragmentCount(|rest|, mss) <= 255 { FragmentsFit(rest, mss, FragmentCount(|rest|, mss), stream); }
  }

  /** Acknowledgements only drop segments or empty them. */
  lemma SenderAfterFits(s: Sender, w: Wire, room: int)
    requires Fit(s.buf, room)
    ensures Fit(SenderAfter(s, w).buf, room) && SenderAfter(s, w).queue == s.queue
  {
    var c := Cumulative(s, w.una);
    assert forall i :: 0 <= i < |c.buf| ==> c.buf[i] == s.buf[Acknowledged(s, w.una) + i];
    var a := ParseAck(c, w.sn);
    assert Fit(a.buf, room);
    var f := ParseFastack(a, w.sn, w.ts);
    assert forall i :: 0 <= i < |f.buf| ==> f.buf[i].data == a.buf[i].data;
  }

  lemma AdmitFits(s: Sender, cwnd: u32, room: int)
    requires Fit(s.buf, room) && Fit(s.queue, room)
    ensures Fit(Admit(s, cwnd).buf, room) && Fit(Admit(s, cwnd).queue, room)
  {
  }

  lemma FlushFits(k: State, full: bool, clock: seq<u32>, room: int)
    requires Room(k, room)
    ensures Room(Flush(k, full, clock).k, room)
  {
    AdmitFits(k.snd, EffectiveWindow(k), room);
    FlushTxKeeps(k, full, clock);
  }

  // ------------------------------------------------- one incoming segment

  ghost function After(k: State, t: Tagged, regular: bool): State {
    AbsorbOne(Absorbed(k, false, false, 0), t, regular).k
  }

  lemma AfterKeeps(k: State, t: Tagged, regular: bool, room: int)
    requires Good(k) && Room(k, room)
    ensures Good(After(k, t, regular)) && Room(After(k, t, regular), room)
  {
    AbsorbOneKeeps(Absorbed(k, false, false, 0), t, regular);
    SenderAfterFits(k.snd, t.w, room);
  }

  /** What one incoming segment does to the receive side. */
  method ReceiverSegment(queue: seq<Segment>, h: seq<Segment>, marks: set<u32>, nxt: u32, wnd: u32, acks: seq<Ack>, w: Wire,
                         ghost t: Tagged, ghost k: State)
      returns (queue': seq<Segment>, h': seq<Segment>, marks': set<u32>, nxt': u32, acks': seq<Ack>)
    requires t.w == w && k.rcv.queue == queue && k.rcv.nxt == nxt && k.rcv.wnd == wnd
    requires Holds(h, marks, k.rcv.buf) && InOrder(h, nxt) && Zipped(acks, k.acks)
    ensures var r := ReceiverAfter(k.rcv, w);
            && r.queue == queue' && r.nxt == nxt' && r.wnd == wnd && Holds(h', marks', r.buf) && InOrder(h', nxt')
    ensures Zipped(acks', AcksAfter(k, t))
  {
    queue', h', marks', nxt', acks' := queue, h, marks, nxt, acks;
    if w.cmd == CMD_PUSH && BelowTop(nxt, wnd, w.sn) {
      acks' := acks + [Ack(w.sn, w.ts)];
      var repeat;
      ghost var r;
      repeat, h', marks', queue', nxt', r := InsertData(h, marks, queue, nxt, wnd, Received(w), k.rcv);
      ParseDataWnd(k.rcv, Received(w));
    }
  }

  lemma ParseDataWnd(r: Receiver, g: Segment)
    ensures ParseData(r, g).wnd == r.wnd
  {
    MoveAvailableWnd(if g.sn in r.buf then r else r.(buf := r.buf[g.sn := g]));
  }

  lemma SetMtuIs(k: State, mtu: u32)
    ensures Step(k, OpSetMtu(mtu)) == if mtu <= OVERHEAD then k else k.(cfg := k.cfg.(mtu := mtu, mss := mtu - OVERHEAD))
  {
  }

  lemma ResetRtoIs(k: State, now: u32)
    requires Good(k)
    ensures var k' := S.ResetRTO(k, now);
            && Good(k') && k' == k.(snd := k.snd.(buf := k'.snd.buf)) && |k'.snd.buf| == |k.snd.buf|
            && forall j :: 0 <= j < |k.snd.buf| ==> k'.snd.buf[j] == k.snd.buf[j].(rto := k.rtt.rto, resendts := now)
  {
    StepKeeps(k, OpResetRTO(now));
  }

  class KCP {
    /** Connection and settings; changed only by the configuration calls. */
    var cfg: Config
    var dead: bool
    // sending
    var snd_una: u32
    var snd_nxt: u32
    var snd_queue: seq<Segment>
    var snd_buf: seq<Segment>
    // receiving
    var rcv_nxt: u32
    var rcv_wnd: u32
    var rcv_queue: seq<Segment>
    var rcv_buf: seq<Segment>
    var marks: set<u32>
    var acklist: seq<Ack>
    // congestion control, round-trip times, window probing
    var cong: Congestion
    var rtt: Timing
    var probe: Probe
    /** The encoding buffer and the output callback. */
    var out: Outlet

    /** The abstract state, with the unbounded numbers behind the 32-bit fields
        and the map behind rcv_buf. */
    ghost var state: State

    ghost predicate Linked()
      reads this
    {
      && cfg == state.cfg && dead == state.dead && cong == state.cong && rtt == state.rtt && probe == state.probe
      && snd_una == state.snd.una && snd_nxt == state.snd.nxt
      && snd_queue == state.snd.queue && snd_buf == state.snd.buf
      && rcv_nxt == state.rcv.nxt && rcv_wnd == state.rcv.wnd && rcv_queue == state.rcv.queue
      && Holds(rcv_buf, marks, state.rcv.buf) && InOrder(rcv_buf, rcv_nxt)
      && Zipped(acklist, state.acks)
    }

    ghost predicate Valid()
      reads this, out
    {
      Linked() && Good(state) && Room(state, out.buffer.Length)
    }

    constructor (conv: u32)
      ensures Valid() && state == S.Fresh(conv) && out.sent == [] && fresh(out) && fresh(out.buffer)
    {
      cfg := Config(conv, MTU_DEF, MTU_DEF - OVERHEAD, WND_DEF, 0, INTERVAL, 0, false, false, DEADLINK, RTO_MIN);
      dead := false;
      snd_una, snd_nxt, rcv_nxt, rcv_wnd := 0, 0, 0, WND_DEF;
      cong, rtt, probe := Congestion(0, THRESH_INIT, 0, WND_DEF), Timing(0, 0, RTO_DEF), Probe(false, false, 0, 0);
      snd_queue, rcv_queue, snd_buf, rcv_buf, marks, acklist := [], [], [], [], {}, [];
      out := new Outlet((MTU_DEF + OVERHEAD) * 3);
      state := S.Fresh(conv);
    }

    // ---------------------------------------------------------------- Send

    method Send(data: seq<byte>) returns (code: int)
      requires Valid()
      modifies this`snd_queue, this`state
      ensures Valid()
      ensures var r := S.Send(old(state), data); state == r.k && code == r.code
    {
      SendKeeps(state, data);
      EnqueueFits(snd_queue, data, cfg.mss, cfg.stream, out.buffer.Length);
      snd_queue, code := SendBytes(snd_queue, data, cfg.mss, cfg.stream);
      state := S.Send(state, data).k;
    }

    // ---------------------------------------------------------------- Recv

    method PeekSize() returns (size: int)
      ensures size == S.PeekSize(rcv_queue)
    {
      size := MessageSize(rcv_queue);
    }

    method Recv(buffer: array<byte>) returns (n: int)
      requires Valid() && buffer != out.buffer
      modifies this`rcv_queue, this`rcv_buf, this`marks, this`rcv_nxt, this`probe, this`state, buffer
      ensures Valid()
      ensures var r := S.Recv(old(state), buffer.Length);
              && state == r.k && n == r.n
              && |r.data| <= buffer.Length && buffer[..|r.data|] == r.data && buffer[|r.data|..] == old(buffer[|r.data|..])
    {
      RecvKeeps(state, buffer.Length);
      n := TakeMessage(buffer);
    }

    method TakeMessage(buffer: array<byte>) returns (n: int)
      requires Linked()
      modifies this`rcv_queue, this`rcv_buf, this`marks, this`rcv_nxt, this`probe, this`state, buffer
      ensures Linked()
      ensures var r := S.Recv(old(state), buffer.Length);
              && state == r.k && n == r.n
              && |r.data| <= buffer.Length && buffer[..|r.data|] == r.data && buffer[|r.data|..] == old(buffer[|r.data|..])
    {
      hide S.Recv, Holds, InOrder, Zipped;
      var queue, h, ms, nxt, tell;
      ghost var r;
      n, queue, h, ms, nxt, tell, r :=
        ReceiveMessage(rcv_queue, rcv_buf, marks, rcv_nxt, rcv_wnd, probe.tell, buffer, state);
      StoreReceiver(queue, h, ms, nxt, tell, S.Recv(state, buffer.Length).k);
    }

    method StoreReceiver(queue: seq<Segment>, h: seq<Segment>, ms: set<u32>, nxt: u32, tell: bool, ghost k: State)
      modifies this`rcv_queue, this`rcv_buf, this`marks, this`rcv_nxt, this`probe, this`state
      ensures rcv_queue == queue && rcv_buf == h && marks == ms && rcv_nxt == nxt
      ensures probe == old(probe).(tell := tell) && state == k
    {
      rcv_queue, rcv_buf, marks, rcv_nxt := queue, h, ms, nxt;
      probe := probe.(tell := tell);
      state := k;
    }

    // --------------------------------------------------------------- Input

    /** One segment of an incoming packet. */
    method InputSegment(w: Wire, regular: bool, ghost t: Tagged) returns (flush: bool)
      requires Valid() && t.w == w
      modifies this`cong, this`snd_buf, this`snd_una, this`rcv_queue, this`rcv_buf, this`marks, this`rcv_nxt,
               this`acklist, this`probe, this`state
      ensures Valid()
      ensures flush == WantsFlush(old(state), w)
      ensures state == After(old(state), t, regular)
    {
      AfterKeeps(state, t, regular, out.buffer.Length);
      flush := ApplySegment(w, regular, t);
    }

    method ApplySegment(w: Wire, regular: bool, ghost t: Tagged) returns (flush: bool)
      requires Linked() && SndInv(state.snd) && t.w == w
      modifies this`cong, this`snd_buf, this`snd_una, this`rcv_queue, this`rcv_buf, this`marks, this`rcv_nxt,
               this`acklist, this`probe, this`state
      ensures Linked()
      ensures flush == WantsFlush(old(state), w)
      ensures state == After(old(state), t, regular)
    {
      hide SenderAfter, ReceiverAfter, AcksAfter, WantsFlush, SndInv, Holds, InOrder;
      var buf, una;
      buf, una, flush := SenderSegment(snd_buf, snd_una, snd_nxt, cfg.fastresend, w, state.snd, state);
      var queue, h, ms, nxt, acks := ReceiverSegment(rcv_queue, rcv_buf, marks, rcv_nxt, rcv_wnd, acklist, w, t, state);
      var c := if regular then cong.(rmtWnd := w.wnd) else cong;
      Store(buf, una, queue, h, ms, nxt, acks, c, probe.tell || w.cmd == CMD_WASK, After(state, t, regular));
    }

    method Store(buf: seq<Segment>, una: u32, queue: seq<Segment>, h: seq<Segment>, ms: set<u32>, nxt: u32, acks: seq<Ack>,
                 c: Congestion, tell: bool, ghost k: State)
      modifies this`cong, this`snd_buf, this`snd_una, this`rcv_queue, this`rcv_buf, this`marks, this`rcv_nxt,
               this`acklist, this`probe, this`state
      ensures snd_buf == buf && snd_una == una && cong == c && acklist == acks
      ensures rcv_queue == queue && rcv_buf == h && marks == ms && rcv_nxt == nxt
      ensures probe == old(probe).(tell := tell) && state == k
    {
      snd_buf, snd_una, cong, acklist := buf, una, c, acks;
      StoreReceiver(queue, h, ms, nxt, tell, k);
    }

    /** The round-trip time and the congestion window after the parse loop. */
    method SettleInput(una: u32, regular: bool, acked: bool, latest: u32, now: u32, ghost a: Absorbed)
      requires Linked() && a == Absorbed(state, a.flush, acked, latest)
      modifies this`rtt, this`cong, this`state
      ensures Linked() && state == Settle(a, una, regular, now)
    {
      hide SndInv, RcvInv, Holds, InOrder, Zipped;
      if acked && regular && Diff(now, latest) >= 0 {
        rtt := UpdateRtt(rtt, cfg.interval, cfg.minrto, Diff(now, latest), state);
      }
      if !cfg.nocwnd && Diff(snd_una, una) > 0 {
        cong := GrowWindow(cong, cfg.mss);
      }
      state := Settle(a, una, regular, now);
    }

    // --------------------------------------------------------------- flush

    method Flush(full: bool, clock: seq<u32>) returns (next: u32)
      requires Valid()
      modifies this`snd_buf, this`snd_queue, this`snd_nxt, this`acklist, this`cong, this`probe, this`dead, this`state,
               out`sent, out.buffer
      ensures Valid()
      ensures var f := S.Flush(old(state), full, clock);
              state == f.k && next == f.next && out.sent == old(out.sent) + EncodePackets(f.packets)
    {
      FlushKeeps(state, full, clock);
      FlushFits(state, full, clock, out.buffer.Length);
      AdmitFits(state.snd, EffectiveWindow(state), out.buffer.Length);
      next := RunPhases(full, clock);
    }

    method RunPhases(full: bool, clock: seq<u32>) returns (next: u32)
      requires Linked() && SndInv(state.snd) && OVERHEAD <= cfg.mtu <= out.buffer.Length
      requires Fit(Admit(state.snd, EffectiveWindow(state)).buf, out.buffer.Length)
      modifies this`snd_buf, this`snd_queue, this`snd_nxt, this`acklist, this`cong, this`probe, this`dead, this`state,
               out`sent, out.buffer
      ensures Linked()
      ensures var f := S.Flush(old(state), full, clock);
              state == f.k && next == f.next && out.sent == old(out.sent) + EncodePackets(f.packets)
    {
      hide S.Flush, SndInv, Holds, InOrder;
      var wnd := if |rcv_queue| < rcv_wnd then (rcv_wnd - |rcv_queue|) % 0x1_0000 else 0;
      var buf, queue, nxt, c, p, d;
      buf, queue, nxt, c, p, d, next :=
        Phases(out, cfg, snd_buf, snd_queue, snd_una, snd_nxt, wnd, rcv_nxt, acklist, cong, rtt.rto, probe, full, clock, state);
      StoreFlush(buf, queue, nxt, c, p, dead || d, S.Flush(state, full, clock).k);
    }

    method StoreFlush(buf: seq<Segment>, queue: seq<Segment>, nxt: u32, c: Congestion, p: Probe, d: bool, ghost k: State)
      modifies this`snd_buf, this`snd_queue, this`snd_nxt, this`acklist, this`cong, this`probe, this`dead, this`state
      ensures snd_buf == buf && snd_queue == queue && snd_nxt == nxt && acklist == []
      ensures cong == c && probe == p && dead == d && state == k
    {
      snd_buf, snd_queue, snd_nxt, acklist := buf, queue, nxt, [];
      cong, probe, dead, state := c, p, d, k;
    }

    // --------------------------------------------------------------- Input

    /** The parse loop: segments are applied one by one until the packet ends or a
        segment is refused; what came before it stays applied. */
    method ParsePacket(data: seq<byte>, regular: bool, ghost ids: seq<(int, int)>)
        returns (code: int, flush: bool, acked: bool, latest: u32, ghost a: Absorbed)
      requires Valid()
      modifies this`cong, this`snd_buf, this`snd_una, this`rcv_queue, this`rcv_buf, this`marks, this`rcv_nxt,
               this`acklist, this`probe, this`state
      ensures Valid()
      ensures var p := ParseLoop(cfg.conv, data); code == p.code && a == Absorb(old(state), TagAll(p.segs, ids), regular)
      ensures a == Absorbed(state, flush, acked, latest)
    {
      hide Linked, Good, Room, ParsedSoFar, WantsFlush;
      code, flush, acked, latest := 0, false, false, 0;
      ghost var k := state;
      ghost var ws: seq<Wire> := [];
      a := Absorbed(k, false, false, 0);
      var rest := data;
      ParsedStart(k, cfg.conv, data, ids, regular);
      while |rest| >= OVERHEAD
        invariant Valid() && a == Absorbed(state, flush, acked, latest) && code == 0
        invariant ParsedSoFar(k, cfg.conv, data, ids, regular, ws, rest, a)
        decreases |rest|
      {
        var w;
        ghost var rest0 := rest;
        code, w, rest := Decode(cfg.conv, rest);
        if code != 0 {
          ParsedEnd(k, cfg.conv, data, ids, regular, ws, rest0, a);
          return;
        }
        ghost var t := Tagged(w, IdAt(ids, |ws|).0, IdAt(ids, |ws|).1);
        var wants := InputSegment(w, regular, t);
        flush := flush || wants;
        if w.cmd == CMD_ACK {
          acked, latest := true, w.ts;
        }
        ParsedNext(k, cfg.conv, data, ids, regular, ws, rest0, a);
        a, ws := AbsorbOne(a, t, regular), ws + [w];
      }
      ParsedEnd(k, cfg.conv, data, ids, regular, ws, rest, a);
    }

    /** Input: the packet's bytes, then round-trip time and window, then a flush
        when the packet calls for one. */
    method Input(data: seq<byte>, regular: bool, ackNoDelay: bool, clock: seq<u32>, ghost ids: seq<(int, int)>)
        returns (code: int)
      requires Valid()
      modifies this, out`sent, out.buffer
      ensures Valid() && out == old(out)
      ensures var r := InputBytes(old(state), data, ids, regular, ackNoDelay, clock);
              state == r.k && code == r.code && out.sent == old(out.sent) + EncodePackets(r.packets)
    {
      assert EncodePackets([]) == [] && out.sent + [] == out.sent;
      ghost var k := state;
      var una := snd_una;
      if |data| < OVERHEAD {
        return -1;
      }
      var flush, acked, latest;
      ghost var a;
      code, flush, acked, latest, a := ParsePacket(data, regular, ids);
      if code != 0 {
        InputRefused(k, data, ids, regular, ackNoDelay, clock, a);
        return;
      }
      InputAccepted(k, data, ids, regular, ackNoDelay, clock, a);
      EndInput(una, flush, acked, latest, regular, ackNoDelay, clock, a);
    }

    /** Input after the parse loop. */
    method EndInput(una: u32, flush: bool, acked: bool, latest: u32, regular: bool, ackNoDelay: bool, clock: seq<u32>, ghost a: Absorbed)
      requires Valid() && a == Absorbed(state, flush, acked, latest)
      modifies this, out`sent, out.buffer
      ensures Valid() && out == old(out)
      ensures var k' := Settle(a, una, regular, Now(clock, 0));
              var choice := InputFlush(flush, k', ackNoDelay);
              var f := S.Flush(k', choice.Full?, clock);
              if choice.NoFlush? then state == k' && out.sent == old(out.sent)
              else state == f.k && out.sent == old(out.sent) + EncodePackets(f.packets)
    {
      hide Good, Room, S.Flush, Holds, InOrder;
      SettleKeeps(a, una, regular, Now(clock, 0), out.buffer.Length);
      SettleInput(una, regular, acked, latest, Now(clock, 0), a);
      if flush {
        var _ := Flush(true, clock);
      } else if |acklist| >= cfg.mtu / OVERHEAD || (ackNoDelay && |acklist| > 0) {
        var _ := Flush(false, clock);
      }
    }

    // ------------------------------------------------------- configuration

    /** SetMtu allocates a new buffer, large enough for what already waits. */
    method SetMtu(mtu: u32) returns (code: int)
      requires Valid()
      modifies this`cfg, this`state, out`buffer
      ensures Valid()
      ensures code == (if mtu <= OVERHEAD then -1 else 0) && state == Step(old(state), OpSetMtu(mtu))
      ensures mtu <= OVERHEAD ==> out.buffer == old(out.buffer)
      ensures mtu > OVERHEAD ==> fresh(out.buffer) && out.buffer.Length >= (mtu + OVERHEAD) * 3
    {
      hide SndInv, RcvInv, Holds, InOrder, Zipped, Step;
      SetMtuIs(state, mtu);
      if mtu <= OVERHEAD {
        return -1;
      }
      var size := (mtu + OVERHEAD) * 3;
      size := LargestSegment(snd_buf, size);
      size := LargestSegment(snd_queue, size);
      cfg := cfg.(mtu := mtu, mss := mtu - OVERHEAD);
      out.buffer := new byte[size];
      state := S.SetMtu(state, mtu);
      return 0;
    }

    method NoDelay(nodelay: int, interval: int, resend: int, nc: int)
      requires Valid()
      modifies this`cfg, this`state
      ensures Valid() && state == S.NoDelay(old(state), nodelay, interval, resend, nc)
    {
      hide SndInv, RcvInv, Holds, InOrder, Zipped;
      StepKeeps(state, OpNoDelay(nodelay, interval, resend, nc));
      cfg := Settings(cfg, nodelay, interval, resend, nc, state);
      state := S.NoDelay(state, nodelay, interval, resend, nc);
    }

    method WndSize(sndwnd: int, rcvwnd: int)
      requires Valid()
      modifies this`cfg, this`rcv_wnd, this`state
      ensures Valid() && state == S.WndSize(old(state), sndwnd, rcvwnd)
    {
      hide SndInv, RcvInv, Holds, InOrder, Zipped;
      WndSizeKeeps(state, sndwnd, rcvwnd);
      if sndwnd > 0 {
        cfg := cfg.(sndWnd := W(sndwnd));
      }
      if rcvwnd > 0 {
        rcv_wnd := W(rcvwnd);
      }
      state := S.WndSize(state, sndwnd, rcvwnd);
    }

    method ResetRTO(now: u32)
      requires Valid()
      modifies this`snd_buf, this`state
      ensures Valid() && state == S.ResetRTO(old(state), now)
    {
      hide SndInv, RcvInv, Holds, InOrder, Zipped, Step, S.ResetRTO;
      ResetRtoIs(state, now);
      var buf := snd_buf;
      var i := 0;
      while i < |buf|
        invariant 0 <= i <= |buf| == |snd_buf|
        invariant forall j :: 0 <= j < |buf| ==> buf[j] == if j < i then snd_buf[j].(rto := rtt.rto, resendts := now) else snd_buf[j]
      {
        buf := buf[i := buf[i].(rto := rtt.rto, resendts := now)];
        i := i + 1;
      }
      snd_buf := buf;
      state := S.ResetRTO(state, now);
    }
  }

  method LargestSegment(q: seq<Segment>, least: nat) returns (size: nat)
    ensures size >= least && Fit(q, size)
    ensures size == least || exists i :: 0 <= i < |q| && size == OVERHEAD + |q[i].data|
  {
    size := least;
    var i := 0;
    while i < |q|
      invariant 0 <= i <= |q| && size >= least && Fit(q[..i], size)
      invariant size == least || exists i :: 0 <= i < |q| && size == OVERHEAD + |q[i].data|
    {
      if OVERHEAD + |q[i].data| > size {
        size := OVERHEAD + |q[i].data|;
      }
      i := i + 1;
    }
  }

  lemma SettleKeeps(a: Absorbed, una: u32, regular: bool, now: u32, room: int)
    requires Good(a.k) && Room(a.k, room)
    ensures Good(Settle(a, una, regular, now)) && Room(Settle(a, una, regular, now), room)
  {
  }

  // ------------------------------------------------------- the parse loop

  /** The header fields and payload at the front of a packet, or a verdict. */
  method Decode(conv: u32, d: seq<byte>) returns (code: int, w: Wire, rest: seq<byte>)
    requires |d| >= OVERHEAD
    ensures code == Verdict(conv, d)
    ensures code == 0 ==> w == Leading(conv, d) && OVERHEAD + Length(d) <= |d| && rest == d[OVERHEAD + Length(d)..]
  {
    w, rest := Wire(Get32(d), d[4], d[5], Get16(d[6..]), Get32(d[8..]), Get32(d[12..]), Get32(d[16..]), []), d;
    var length := Get32(d[20..]);
    if w.conv != conv {
      return -1, w, rest;
    }
    if |d| - OVERHEAD < length {
      return -2, w, rest;
    }
    if w.cmd != CMD_PUSH && w.cmd != CMD_ACK && w.cmd != CMD_WASK && w.cmd != CMD_WINS {
      return -3, w, rest;
    }
    return 0, w.(data := d[OVERHEAD..OVERHEAD + length]), d[OVERHEAD + length..];
  }

  /** `ws` was parsed and applied, `rest` is still to come. */
  ghost predicate ParsedSoFar(k: State, conv: u32, data: seq<byte>, ids: seq<(int, int)>, regular: bool,
                              ws: seq<Wire>, rest: seq<byte>, a: Absorbed) {
    ParseLoop(conv, data) == Prepend(ws, ParseLoop(conv, rest)) && a == Absorb(k, TagAll(ws, ids), regular)
  }

  lemma ParsedStart(k: State, conv: u32, data: seq<byte>, ids: seq<(int, int)>, regular: bool)
    ensures ParsedSoFar(k, conv, data, ids, regular, [], data, Absorbed(k, false, false, 0))
  {
    assert [] + ParseLoop(conv, data).segs == ParseLoop(conv, data).segs;
  }

  lemma ParsedNext(k: State, conv: u32, data: seq<byte>, ids: seq<(int, int)>, regular: bool, ws: seq<Wire>, rest: seq<byte>, a: Absorbed)
    requires ParsedSoFar(k, conv, data, ids, regular, ws, rest, a) && |rest| >= OVERHEAD && Verdict(conv, rest) == 0
    ensures var w := Leading(conv, rest);
            var t := Tagged(w, IdAt(ids, |ws|).0, IdAt(ids, |ws|).1);
            && OVERHEAD + Length(rest) <= |rest|
            && ParsedSoFar(k, conv, data, ids, regular, ws + [w], rest[OVERHEAD + Length(rest)..], AbsorbOne(a, t, regular))
  {
    var w := Leading(conv, rest);
    PrependAppend(ws, w, ParseLoop(conv, rest[OVERHEAD + Length(rest)..]));
    var ts := TagAll(ws + [w], ids);
    assert ts[..|ts|-1] == TagAll(ws, ids);
  }

  lemma ParsedEnd(k: State, conv: u32, data: seq<byte>, ids: seq<(int, int)>, regular: bool, ws: seq<Wire>, rest: seq<byte>, a: Absorbed)
    requires ParsedSoFar(k, conv, data, ids, regular, ws, rest, a)
    requires |rest| >= OVERHEAD ==> Verdict(conv, rest) != 0
    ensures var p := ParseLoop(conv, data);
            && p.code == (if |rest| >= OVERHEAD then Verdict(conv, rest) else 0)
            && a == Absorb(k, TagAll(p.segs, ids), regular)
  {
    assert ws + [] == ws;
  }

  // ------------------------------------------------------ the cases of Input

  lemma InputRefused(k: State, data: seq<byte>, ids: seq<(int, int)>, regular: bool, ackNoDelay: bool, clock: seq<u32>, a: Absorbed)
    requires |data| >= OVERHEAD
    requires var p := ParseLoop(k.cfg.conv, data); p.code != 0 && a == Absorb(k, TagAll(p.segs, ids), regular)
    ensures InputBytes(k, data, ids, regular, ackNoDelay, clock) == InputResult(a.k, ParseLoop(k.cfg.conv, data).code, [], [])
  {
  }

  lemma InputAccepted(k: State, data: seq<byte>, ids: seq<(int, int)>, regular: bool, ackNoDelay: bool, clock: seq<u32>, a: Absorbed)
    requires |data| >= OVERHEAD
    requires var p := ParseLoop(k.cfg.conv, data); p.code == 0 && a == Absorb(k, TagAll(p.segs, ids), regular)
    ensures var k' := Settle(a, k.snd.una, regular, Now(clock, 0));
            var choice := InputFlush(a.flush, k', ackNoDelay);
            var f := S.Flush(k', choice.Full?, clock);
            InputBytes(k, data, ids, regular, ackNoDelay, clock) ==
              if choice.NoFlush? then InputResult(k', 0, [], []) else InputResult(f.k, 0, f.packets, f.kinds)
  {
  }

  // ------------------------------------------------------------- settings

  method Settings(cfg: Config, nodelay: int, interval: int, resend: int, nc: int, ghost k: State) returns (c: Config)
    requires k.cfg == cfg
    ensures k.(cfg := c) == NoDelay(k, nodelay, interval, resend, nc)
  {
    c := cfg;
    if nodelay >= 0 {
      c := c.(nodelay := W(nodelay), minrto := if nodelay != 0 then RTO_NDL else RTO_MIN);
    }
    if interval >= 0 {
      c := c.(interval := if interval > 5000 then 5000 else if interval < 10 then 10 else interval);
    }
    if resend >= 0 {
      c := c.(fastresend := Diff(W(resend), 0));
    }
    if nc >= 0 {
      c := c.(nocwnd := W(nc) != 0);
    }
  }
}
