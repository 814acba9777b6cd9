/** What every operation keeps, for arbitrary input bytes: the send window, the
    receive window and the relation of both to the unbounded numbers. */
module KcpWindows {
  import opened Serial
  import opened KcpState
  import opened WireFormat

  // ---------------------------------------------------------- the send window

  lemma CumulativeKeeps(s: Sender, una: u32)
    requires SndInv(s)
    ensures SndInv(Cumulative(s, una))
    ensures Base(Cumulative(s, una)) == Base(s) + Acknowledged(s, una)
  {
    var n := Acknowledged(s, una);
    var s' := Cumulative(s, una);
    assert forall i :: 0 <= i < |s'.buf| ==> s'.buf[i] == s.buf[n + i];
  }

  lemma ParseAckKeeps(s: Sender, sn: u32)
    requires SndInv(s)
    ensures SndInv(ParseAck(s, sn)) && Base(ParseAck(s, sn)) == Base(s)
  {
  }

  lemma ParseFastackKeeps(s: Sender, sn: u32, ts: u32)
    requires SndInv(s)
    ensures SndInv(ParseFastack(s, sn, ts)) && Base(ParseFastack(s, sn, ts)) == Base(s)
  {
  }

  lemma AdmitKeeps(s: Sender, cwnd: u32)
    requires SndInv(s) && cwnd <= WND_MAX
    ensures SndInv(Admit(s, cwnd)) && Base(Admit(s, cwnd)) == Base(s)
  {
    hide W;
    WAdd(s.total, Admitted(s, cwnd));
  }

  /** Sending a segment changes neither its number nor its content. */
  lemma TxOneKeeps(t: Tx, g: Segment, i: nat, c: TxContext)
    ensures exists g' :: TxOne(t, g, i, c).buf == t.buf + [g']
                      && g'.sn == g.sn && g'.frg == g.frg && g'.data == g.data && g'.acked == g.acked
  {
    var buf := TxOne(t, g, i, c).buf;
    assert buf == t.buf + [buf[|t.buf|]];
  }

  lemma {:induction false} TransmitKeeps(buf: seq<Segment>, n: nat, c: TxContext)
    requires n <= |buf|
    ensures var t := Transmit(buf, n, c);
            forall i :: 0 <= i < n ==>
              && t.buf[i].sn == buf[i].sn && t.buf[i].frg == buf[i].frg
              && t.buf[i].data == buf[i].data && t.buf[i].acked == buf[i].acked
  {
    hide TxOne;
    if n > 0 {
      TransmitKeeps(buf, n - 1, c);
      TxOneKeeps(Transmit(buf, n - 1, c), buf[n-1], n - 1, c);
    }
  }

  /** Only the numbers matter to the window invariant. */
  lemma SameNumbersKeep(s: Sender, buf: seq<Segment>)
    requires SndInv(s) && |buf| == |s.buf| && forall i :: 0 <= i < |buf| ==> buf[i].sn == s.buf[i].sn
    ensures SndInv(s.(buf := buf)) && Base(s.(buf := buf)) == Base(s)
  {
  }

  lemma FlushTxKeeps(k: State, full: bool, clock: seq<u32>)
    ensures var buf, buf' := Admit(k.snd, EffectiveWindow(k)).buf, FlushTx(k, full, clock).buf;
            && |buf'| == |buf|
            && forall i :: 0 <= i < |buf| ==>
                 && buf'[i].sn == buf[i].sn && buf'[i].frg == buf[i].frg
                 && buf'[i].data == buf[i].data && buf'[i].acked == buf[i].acked
  {
    var buf := Admit(k.snd, EffectiveWindow(k)).buf;
    if full { TransmitKeeps(buf, |buf|, FlushContext(k, clock)); }
  }

  lemma FlushKeepsSender(k: State, full: bool, clock: seq<u32>)
    requires SndInv(k.snd)
    ensures SndInv(Flush(k, full, clock).k.snd)
    ensures Base(Flush(k, full, clock).k.snd) == Base(k.snd)
  {
    AdmitKeeps(k.snd, EffectiveWindow(k));
    FlushTxKeeps(k, full, clock);
    SameNumbersKeep(Admit(k.snd, EffectiveWindow(k)), FlushTx(k, full, clock).buf);
  }

  // ------------------------------------------------------- the receive window

  lemma OffsetAfterMove(r: Receiver, sn: u32)
    requires r.nxt in r.buf && sn != r.nxt
    ensures Offset(Moved(r), sn) == Offset(r, sn) - 1
  {
  }

  lemma MovedKeeps(r: Receiver)
    requires RcvInv(r) && r.nxt in r.buf
    ensures RcvInv(Moved(r))
    ensures forall sn :: sn in Moved(r).buf ==> sn in r.buf && Offset(Moved(r), sn) == Offset(r, sn) - 1
  {
    hide Offset, W;
    var r' := Moved(r);
    forall sn | sn in r'.buf
      ensures sn in r.buf && Offset(r', sn) == Offset(r, sn) - 1 && r'.buf[sn].sn == sn
    {
      OffsetAfterMove(r, sn);
    }
    WAdd(r.total, 1);
  }

  lemma {:induction false} MoveAvailableKeeps(r: Receiver)
    requires RcvInv(r)
    ensures RcvInv(MoveAvailable(r)) && MoveAvailable(r).wnd == r.wnd
    decreases |r.buf|
  {
    if r.nxt in r.buf && |r.queue| < r.wnd {
      MovedKeeps(r);
      MoveAvailableKeeps(Moved(r));
    }
  }

  lemma ParseDataKeeps(r: Receiver, g: Segment)
    requires RcvInv(r)
    ensures RcvInv(ParseData(r, g)) && ParseData(r, g).wnd == r.wnd
  {
    if InWindow(r, g.sn) {
      MoveAvailableKeeps(if g.sn in r.buf then r else r.(buf := r.buf[g.sn := g]));
    }
  }

  // ------------------------------- the receive window when its size is fixed

  /** Buffered numbers lie in [nxt, nxt + wnd), the queue holds at most wnd
      segments, and nxt itself is buffered only while the queue is full. */
  ghost predicate RcvWindow(r: Receiver) {
    && RcvInv(r)
    && 0 < r.wnd <= HALF
    && |r.queue| <= r.wnd
    && (forall sn :: sn in r.buf ==> Offset(r, sn) < r.wnd)
    && (r.nxt in r.buf ==> |r.queue| == r.wnd)
  }

  lemma {:induction false} MoveAvailableFills(r: Receiver)
    requires RcvInv(r) && 0 < r.wnd <= HALF && |r.queue| <= r.wnd
    requires forall sn :: sn in r.buf ==> Offset(r, sn) < r.wnd
    ensures RcvWindow(MoveAvailable(r))
    decreases |r.buf|
  {
    if r.nxt in r.buf && |r.queue| < r.wnd {
      MovedKeeps(r);
      MoveAvailableFills(Moved(r));
    }
  }

  /** The two circular comparisons of the receive path mean what they say. */
  lemma InWindowMeans(r: Receiver, sn: u32)
    requires r.wnd <= HALF
    ensures InWindow(r, sn) <==> Offset(r, sn) < r.wnd
  {
    DiffIsUnboundedDifference(r.nxt + Offset(r, sn), r.nxt + r.wnd);
    assert W(r.nxt + Offset(r, sn)) == sn;
  }

  lemma ParseDataFills(r: Receiver, g: Segment)
    requires RcvWindow(r)
    ensures RcvWindow(ParseData(r, g))
  {
    InWindowMeans(r, g.sn);
    if InWindow(r, g.sn) {
      var r' := if g.sn in r.buf then r else r.(buf := r.buf[g.sn := g]);
      assert forall sn :: sn in r'.buf ==> Offset(r', sn) == Offset(r, sn) < r.wnd;
      MoveAvailableFills(r');
    }
  }

  lemma LastOffset(r: Receiver, sn: u32, w: nat)
    requires Offset(r, sn) < w && sn != W(r.nxt + w - 1)
    ensures Offset(r, sn) < w - 1
  {
  }

  /** The buffer never holds more than wnd segments either. */
  lemma {:induction false} BufferBound(r: Receiver, w: nat)
    requires forall sn :: sn in r.buf ==> Offset(r, sn) < w
    ensures |r.buf| <= w
    decreases w
  {
    if w == 0 {
      assert r.buf.Keys == {};
    } else {
      var last := W(r.nxt + w - 1);
      var r' := r.(buf := r.buf - {last});
      forall sn | sn in r'.buf ensures Offset(r', sn) < w - 1 { assert sn in r.buf; LastOffset(r, sn, w); }
      BufferBound(r', w - 1);
      assert r'.buf.Keys == r.buf.Keys - {last};
    }
  }

  // ------------------------------------------------------------ whole states

  ghost predicate Good(k: State) {
    && SndInv(k.snd) && RcvInv(k.rcv)
    && k.cfg.mtu > OVERHEAD && k.cfg.mss == k.cfg.mtu - OVERHEAD
  }

  lemma AbsorbOneKeeps(a: Absorbed, t: Tagged, regular: bool)
    requires Good(a.k)
    ensures Good(AbsorbOne(a, t, regular).k)
    ensures RcvWindow(a.k.rcv) ==> RcvWindow(AbsorbOne(a, t, regular).k.rcv)
    ensures AbsorbOne(a, t, regular).k.rcv.wnd == a.k.rcv.wnd
  {
    CumulativeKeeps(a.k.snd, t.w.una);
    var s := Cumulative(a.k.snd, t.w.una);
    ParseAckKeeps(s, t.w.sn);
    ParseFastackKeeps(ParseAck(s, t.w.sn), t.w.sn, t.w.ts);
    ParseDataKeeps(a.k.rcv, Received(t.w));
    if RcvWindow(a.k.rcv) { ParseDataFills(a.k.rcv, Received(t.w)); }
  }

  lemma {:induction false} AbsorbKeeps(k: State, ts: seq<Tagged>, regular: bool)
    requires Good(k)
    ensures Good(Absorb(k, ts, regular).k)
    ensures RcvWindow(k.rcv) ==> RcvWindow(Absorb(k, ts, regular).k.rcv)
    ensures Absorb(k, ts, regular).k.rcv.wnd == k.rcv.wnd
  {
    if ts != [] {
      AbsorbKeeps(k, ts[..|ts|-1], regular);
      AbsorbOneKeeps(Absorb(k, ts[..|ts|-1], regular), ts[|ts|-1], regular);
    }
  }

  lemma FlushKeepsReceiver(k: State, full: bool, clock: seq<u32>)
    ensures Flush(k, full, clock).k.rcv == k.rcv && Flush(k, full, clock).k.cfg == k.cfg
  {
  }

  lemma FlushKeeps(k: State, full: bool, clock: seq<u32>)
    requires Good(k)
    ensures Good(Flush(k, full, clock).k) && Flush(k, full, clock).k.rcv == k.rcv
  {
    FlushKeepsSender(k, full, clock);
  }

  lemma InputKeeps(k: State, ts: seq<Tagged>, code: int, regular: bool, ackNoDelay: bool, clock: seq<u32>)
    requires Good(k)
    ensures var k' := Input(k, ts, code, regular, ackNoDelay, clock).k;
            Good(k') && k'.rcv.wnd == k.rcv.wnd && (RcvWindow(k.rcv) ==> RcvWindow(k'.rcv))
  {
    hide Flush, Absorb;
    AbsorbKeeps(k, ts, regular);
    AbsorbKeepsConfig(k, ts, regular);
    var a := Absorb(k, ts, regular);
    var k' := Settle(a, k.snd.una, regular, Now(clock, 0));
    FlushKeeps(k', InputFlush(a.flush, k', ackNoDelay).Full?, clock);
  }

  /** Only the configuration calls change the configuration. */
  lemma InputKeepsConfig(k: State, ts: seq<Tagged>, code: int, regular: bool, ackNoDelay: bool, clock: seq<u32>)
    ensures Input(k, ts, code, regular, ackNoDelay, clock).k.cfg == k.cfg
  {
    AbsorbKeepsConfig(k, ts, regular);
  }

  lemma DropKeeps(r: Receiver, n: nat)
    requires RcvInv(r) && n <= |r.queue|
    ensures RcvInv(r.(queue := r.queue[n..]))
  {
    var r' := r.(queue := r.queue[n..]);
    assert forall i :: 0 <= i < |r'.queue| ==> r'.queue[i] == r.queue[n + i];
  }

  lemma RecvKeeps(k: State, room: nat)
    requires Good(k)
    ensures var k' := Recv(k, room).k;
            Good(k') && k'.rcv.wnd == k.rcv.wnd && (RcvWindow(k.rcv) ==> RcvWindow(k'.rcv))
  {
    var n := MessageEnd(k.rcv.queue);
    var r := k.rcv.(queue := k.rcv.queue[n..]);
    DropKeeps(k.rcv, n);
    MoveAvailableKeeps(r);
    if RcvWindow(k.rcv) {
      assert forall sn :: sn in r.buf ==> Offset(r, sn) == Offset(k.rcv, sn);
      MoveAvailableFills(r);
    }
  }

  // ------------------------------------------------------------------- runs

  /** Every operation on one endpoint.  Input takes raw bytes; `ids` supplies
      the history tags of the parsed segments. */
  datatype Op =
    | OpSend(buffer: seq<byte>)
    | OpRecv(room: nat)
    | OpInput(data: seq<byte>, ids: seq<(int, int)>, regular: bool, ackNoDelay: bool, clock: seq<u32>)
    | OpFlush(full: bool, clock: seq<u32>)
    | OpSetMtu(mtu: u32)
    | OpNoDelay(nodelay: int, interval: int, resend: int, nc: int)
    | OpWndSize(sndwnd: int, rcvwnd: int)
    | OpStream(on: bool)
    | OpResetRTO(now: u32)

  function IdAt(ids: seq<(int, int)>, i: nat): (int, int) { if i < |ids| then ids[i] else (0, 0) }

  function TagAll(ws: seq<Wire>, ids: seq<(int, int)>): (ts: seq<Tagged>)
    ensures |ts| == |ws|
  {
    seq(|ws|, i requires 0 <= i < |ws| => Tagged(ws[i], IdAt(ids, i).0, IdAt(ids, i).1))
  }

  function InputBytes(k: State, data: seq<byte>, ids: seq<(int, int)>, regular: bool, ackNoDelay: bool, clock: seq<u32>): InputResult
  {
    var p := Parse(k.cfg.conv, data);
    Input(k, TagAll(p.segs, ids), p.code, regular, ackNoDelay, clock)
  }

  function Step(k: State, op: Op): State
  {
    match op
    case OpSend(buffer) => Send(k, buffer).k
    case OpRecv(room) => Recv(k, room).k
    case OpInput(data, ids, regular, ackNoDelay, clock) => InputBytes(k, data, ids, regular, ackNoDelay, clock).k
    case OpFlush(full, clock) => Flush(k, full, clock).k
    case OpSetMtu(mtu) => if mtu <= OVERHEAD then k else SetMtu(k, mtu)
    case OpNoDelay(nodelay, interval, resend, nc) => NoDelay(k, nodelay, interval, resend, nc)
    case OpWndSize(sndwnd, rcvwnd) => WndSize(k, sndwnd, rcvwnd)
    case OpStream(on) => k.(cfg := k.cfg.(stream := on))
    case OpResetRTO(now) => ResetRTO(k, now)
  }

  /** The packets an operation hands to the output callback. */
  function Emitted(k: State, op: Op): seq<seq<Tagged>>
  {
    match op
    case OpFlush(full, clock) => Flush(k, full, clock).packets
    case OpInput(data, ids, regular, ackNoDelay, clock) => InputBytes(k, data, ids, regular, ackNoDelay, clock).packets
    case _ => []
  }

  /** The receive window size stays what it is. */
  predicate KeepsRcvWnd(op: Op) { op.OpWndSize? ==> op.rcvwnd <= 0 }

  lemma SendKeeps(k: State, buffer: seq<byte>)
    requires Good(k)
    ensures Good(Send(k, buffer).k) && Send(k, buffer).k.rcv == k.rcv
  {
  }

  lemma WndSizeKeeps(k: State, sndwnd: int, rcvwnd: int)
    requires Good(k)
    ensures Good(WndSize(k, sndwnd, rcvwnd))
    ensures rcvwnd <= 0 ==> WndSize(k, sndwnd, rcvwnd).rcv == k.rcv
  {
    var k' := WndSize(k, sndwnd, rcvwnd);
    assert forall sn :: sn in k'.rcv.buf ==> Offset(k'.rcv, sn) == Offset(k.rcv, sn);
  }

  lemma StepKeeps(k: State, op: Op)
    requires Good(k)
    ensures Good(Step(k, op))
    ensures KeepsRcvWnd(op) ==> Step(k, op).rcv.wnd == k.rcv.wnd
    ensures KeepsRcvWnd(op) && RcvWindow(k.rcv) ==> RcvWindow(Step(k, op).rcv)
  {
    hide Flush, Input, Recv, Send, WndSize, NoDelay, ResetRTO, SndInv, RcvInv;
    match op
    case OpRecv(room) => RecvKeeps(k, room);
    case OpInput(data, ids, regular, ackNoDelay, clock) =>
      var p := Parse(k.cfg.conv, data);
      InputKeeps(k, TagAll(p.segs, ids), p.code, regular, ackNoDelay, clock);
    case OpFlush(full, clock) => FlushKeeps(k, full, clock);
    case OpSend(buffer) => SendKeeps(k, buffer);
    case OpResetRTO(now) => ResetKeeps(k, now);
    case OpSetMtu(mtu) =>
    case OpNoDelay(nodelay, interval, resend, nc) => NoDelayKeeps(k, nodelay, interval, resend, nc);
    case OpWndSize(sndwnd, rcvwnd) => WndSizeKeeps(k, sndwnd, rcvwnd);
    case OpStream(_) =>
  }

  lemma ResetKeeps(k: State, now: u32)
    requires Good(k)
    ensures Good(ResetRTO(k, now)) && ResetRTO(k, now).rcv == k.rcv
  {
    hide RcvInv;
  }

  lemma NoDelayKeeps(k: State, nodelay: int, interval: int, resend: int, nc: int)
    requires Good(k)
    ensures Good(NoDelay(k, nodelay, interval, resend, nc)) && NoDelay(k, nodelay, interval, resend, nc).rcv == k.rcv
  {
    hide SndInv, RcvInv;
  }

  /** A run: each state follows from the one before by one operation. */
  ghost predicate IsRun(ks: seq<State>, ops: seq<Op>) {
    && |ks| == |ops| + 1
    && forall i :: 0 <= i < |ops| ==> ks[i+1] == Step(ks[i], ops[i])
  }

  /** Sender window invariant: in every run from a new endpoint, whatever bytes
      arrive, the send buffer holds exactly una..nxt-1 modulo 2^32 and at most
      65535 of them. */
  lemma {:induction false} RunsKeepWindows(conv: u32, ks: seq<State>, ops: seq<Op>, n: nat)
    requires IsRun(ks, ops) && ks[0] == Fresh(conv) && n < |ks|
    ensures Good(ks[n])
  {
    hide Step;
    if n > 0 {
      RunsKeepWindows(conv, ks, ops, n - 1);
      StepKeeps(ks[n-1], ops[n-1]);
    }
  }

  /** Receiver invariant: with the window size fixed before traffic starts, every
      run keeps the queue and the buffer inside it. */
  lemma {:induction false} RunsKeepReceiveWindow(conv: u32, wnd: u32, ks: seq<State>, ops: seq<Op>, n: nat)
    requires IsRun(ks, ops) && ks[0] == WndSize(Fresh(conv), 0, wnd) && 0 < wnd <= HALF && n < |ks|
    requires forall i :: 0 <= i < |ops| ==> KeepsRcvWnd(ops[i])
    ensures Good(ks[n]) && RcvWindow(ks[n].rcv) && ks[n].rcv.wnd == wnd
    ensures |ks[n].rcv.queue| <= wnd && |ks[n].rcv.buf| <= wnd
  {
    hide Step;
    if n > 0 {
      RunsKeepReceiveWindow(conv, wnd, ks, ops, n - 1);
      StepKeeps(ks[n-1], ops[n-1]);
    }
    BufferBound(ks[n].rcv, wnd);
  }

  /** Flush admits a segment only while fewer than min(snd_wnd, rmt_wnd, cwnd)
      are in flight, and stops only when the window or the queue is exhausted. */
  lemma AdmissionRule(k: State, full: bool, clock: seq<u32>)
    requires Good(k)
    ensures var n := |Flush(k, full, clock).k.snd.buf| - |k.snd.buf|;
            && n >= 0
            && (n > 0 ==> |k.snd.buf| + n <= k.cfg.sndWnd && |k.snd.buf| + n <= k.cong.rmtWnd
                          && (k.cfg.nocwnd || |k.snd.buf| + n <= k.cong.cwnd))
            && (n < |k.snd.queue| ==> || |k.snd.buf| + n >= k.cfg.sndWnd || |k.snd.buf| + n >= k.cong.rmtWnd
                                      || (!k.cfg.nocwnd && |k.snd.buf| + n >= k.cong.cwnd))
            && Flush(k, full, clock).k.snd.queue == k.snd.queue[n..]
  {
    FlushKeepsSender(k, full, clock);
  }
}
