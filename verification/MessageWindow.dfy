/** Which messages a receive window lets through. */
module MessageWindow {
  import opened Serial
  import opened KcpState
  import opened WireFormat
  import opened KcpWindows
  import opened Delivery
  import opened DeliveryRuns
  import opened DeliveryTheorems
  import opened MessageDelivery
  import opened FlowControl
  import KcpLoops

  // ------------------------------------------------------------ one endpoint

  /** When the leading message counts as complete: one fragment, or as many as its
      first fragment announces; a first fragment numbered 255, which Send never
      makes, is taken for complete whatever has arrived. */
  lemma PeekCondition(q: seq<Segment>)
    ensures PeekSize(q) >= 0 <==> q != [] && (q[0].frg == 0 || q[0].frg == 255 || |q| >= q[0].frg + 1)
  {
  }

  lemma ReceiverAfterExtends(r: Receiver, w: Wire)
    ensures r.queue <= ReceiverAfter(r, w).queue
  {
    if w.cmd == CMD_PUSH && InWindow(r, w.sn) {
      MoveExtends(if w.sn in r.buf then r else r.(buf := r.buf[w.sn := Received(w)]));
    }
  }

  lemma {:induction false} MoveExtends(r: Receiver)
    ensures r.queue <= MoveAvailable(r).queue
    decreases |r.buf|
  {
    if r.nxt in r.buf && |r.queue| < r.wnd { MoveExtends(Moved(r)); }
  }

  lemma {:induction false} AbsorbExtends(k: State, ts: seq<Tagged>, regular: bool)
    ensures k.rcv.queue <= Absorb(k, ts, regular).k.rcv.queue
  {
    if ts != [] {
      AbsorbExtends(k, ts[..|ts|-1], regular);
      ReceiverAfterExtends(Absorb(k, ts[..|ts|-1], regular).k.rcv, ts[|ts|-1].w);
    }
  }

  lemma InputExtends(k: State, ts: seq<Tagged>, code: int, regular: bool, ackNoDelay: bool, clock: seq<u32>)
    ensures k.rcv.queue <= Input(k, ts, code, regular, ackNoDelay, clock).k.rcv.queue
  {
    hide Flush, Absorb;
    AbsorbExtends(k, ts, regular);
    var a := Absorb(k, ts, regular);
    var k' := Settle(a, k.snd.una, regular, Now(clock, 0));
    FlushKeepsReceiver(k', InputFlush(a.flush, k', ackNoDelay).Full?, clock);
  }

  /** Only a successful Recv takes anything from the receive queue. */
  lemma StepExtends(k: State, op: Op)
    requires PeekSize(k.rcv.queue) < 0
    ensures k.rcv.queue <= Step(k, op).rcv.queue
  {
    hide Flush, Input, Send;
    match op
    case OpInput(data, ids, regular, ackNoDelay, clock) =>
      var p := Parse(k.cfg.conv, data);
      InputExtends(k, TagAll(p.segs, ids), p.code, regular, ackNoDelay, clock);
    case OpFlush(full, clock) => FlushKeepsReceiver(k, full, clock);
    case OpSend(buffer) => assert Send(k, buffer).k.rcv == k.rcv by { SendKeepsReceiver(k, buffer); }
    case OpRecv(room) =>
    case _ =>
  }

  lemma SendKeepsReceiver(k: State, buffer: seq<byte>)
    ensures Send(k, buffer).k.rcv == k.rcv
  {
  }

  /** A message of more fragments than the receive window blocks its reader for
      good: from the moment its first fragment leads the queue, Recv finds nothing,
      whatever arrives. */
  lemma {:induction false} TooLongForWindow(conv: u32, wnd: u32, ks: seq<State>, ops: seq<Op>, m: nat, n: nat)
    requires IsRun(ks, ops) && ks[0] == WndSize(Fresh(conv), 0, wnd) && 0 < wnd <= HALF && m <= n < |ks|
    requires forall i :: 0 <= i < |ops| ==> KeepsRcvWnd(ops[i])
    requires ks[m].rcv.queue != [] && wnd <= ks[m].rcv.queue[0].frg < 255
    ensures ks[n].rcv.queue != [] && ks[n].rcv.queue[0] == ks[m].rcv.queue[0] && PeekSize(ks[n].rcv.queue) == -1
    decreases n
  {
    hide Step, Good, RcvWindow;
    RunsKeepReceiveWindow(conv, wnd, ks, ops, n);
    if m < n {
      TooLongForWindow(conv, wnd, ks, ops, m, n - 1);
      StepExtends(ks[n - 1], ops[n - 1]);
      assert ks[n] == Step(ks[n - 1], ops[n - 1]);
    }
    PeekCondition(ks[n].rcv.queue);
  }

  // ----------------------------------------------------------- two endpoints

  /** How many fragments message j was cut into. */
  function Count(x: Node, j: nat): int
    requires j < |x.ends|
  {
    x.ends[j] - Start(x.ends, j)
  }

  ghost predicate Windowed(conv: u32, s: System, w: u32) {
    SystemOk(conv, s) && BothMessages(s) && RcvWindow(s.b.k.rcv) && s.b.k.rcv.wnd == w
  }

  lemma WindowedStep(conv: u32, s: System, s': System, atA: bool, op: Op, w: u32)
    requires Windowed(conv, s, w) && Next(s, s', atA, op) && (op.OpStream? ==> !op.on) && (!atA ==> KeepsRcvWnd(op))
    ensures Windowed(conv, s', w)
  {
    hide BothMessages, RcvWindow, SystemOk, Good, Direction, Possible, Step, Out;
    SystemStep(conv, s, s', atA, op);
    MessageStep(conv, s, s', atA, op);
    if !atA {
      assert Good(s.b.k) by { BothGood(conv, s); }
      StepKeeps(s.b.k, op);
    }
  }

  lemma BothGood(conv: u32, s: System)
    requires SystemOk(conv, s)
    ensures Good(s.a.k) && Good(s.b.k)
  {
  }

  /** A run in message mode in which the receiver's window is w throughout. */
  ghost predicate IsWindowRun(conv: u32, w: u32, ss: seq<System>, at: seq<bool>, ops: seq<Op>) {
    && IsSystemRun(ss, at, ops) && 0 < w <= HALF && MessageMode(ops)
    && ss[0] == System(Sized(conv, WND_DEF), Sized(conv, w), {}, {})
    && forall i :: 0 <= i < |ops| && !at[i] ==> KeepsRcvWnd(ops[i])
  }

  lemma WindowedStart(conv: u32, w: u32)
    requires 0 < w <= HALF
    ensures Windowed(conv, System(Sized(conv, WND_DEF), Sized(conv, w), {}, {}), w)
  {
    hide SystemOk, Good;
    SizedOk(conv, WND_DEF, w);
    SizedWindow(conv, w);
    assert All(Sized(conv, w)) == [] && All(Sized(conv, WND_DEF)) == [];
  }

  lemma SizedWindow(conv: u32, w: u32)
    requires 0 < w <= HALF
    ensures RcvWindow(Sized(conv, w).k.rcv) && Sized(conv, w).k.rcv.wnd == w
  {
  }

  lemma {:induction false} RunsStayWindowed(conv: u32, w: u32, ss: seq<System>, at: seq<bool>, ops: seq<Op>, n: nat)
    requires IsWindowRun(conv, w, ss, at, ops) && n < |ss|
    ensures Windowed(conv, ss[n], w)
  {
    hide Windowed, Next, Sized;
    if n == 0 {
      WindowedStart(conv, w);
    } else {
      RunsStayWindowed(conv, w, ss, at, ops, n - 1);
      WindowedStep(conv, ss[n - 1], ss[n], at[n - 1], ops[n - 1], w);
    }
  }

  /** The next message can be read exactly when as many segments are queued as it
      was cut into, and then Recv returns it. */
  lemma ReadableWhenQueued(x: Node, y: Node, room: nat)
    requires RcvOk(y.k.rcv, x.log) && Messages(x, y) && |y.got| < |x.msgs|
    ensures PeekSize(y.k.rcv.queue) >= 0 <==> |y.k.rcv.queue| >= Count(x, |y.got|)
    ensures PeekSize(y.k.rcv.queue) >= 0 && room >= |x.msgs[|y.got|]| ==> Recv(y.k, room).n >= 0 && Recv(y.k, room).data == x.msgs[|y.got|]
  {
    hide MoveAvailable, MessageEnd, Bytes, DataLen;
    var q, c, j := y.k.rcv.queue, Consumed(y.k.rcv), |y.got|;
    assert IsGroup(All(x), Start(x.ends, j), x.ends[j], x.msgs[j]);
    PeekCondition(q);
    if q != [] { assert FragOf(q[0]) == x.log[c + 0] == All(x)[c]; }
    if PeekSize(q) >= 0 {
      NextMessage(x, y);
      KcpLoops.PeekIsLength(q);
      KcpLoops.BytesLen(q[..MessageEnd(q)]);
    }
  }

  /** When every fragment of the next message has arrived, it can be read exactly
      when it has no more fragments than the window. */
  lemma ReadableWhenHeld(conv: u32, s: System, w: u32)
    requires Windowed(conv, s, w) && |s.b.got| < |s.a.msgs|
    requires forall l :: Start(s.a.ends, |s.b.got|) <= l < s.a.ends[|s.b.got|] ==> Held(s.b.k.rcv, l)
    ensures PeekSize(s.b.k.rcv.queue) >= 0 <==> Count(s.a, |s.b.got|) <= w
  {
    hide PeekSize, W;
    var r, j := s.b.k.rcv, |s.b.got|;
    ReadableWhenQueued(s.a, s.b, 0);
    if |r.queue| < Count(s.a, j) { assert Held(r, r.total); }
  }

  // -------------------------------------------------------------------- runs

  /** Accepted messages stay where they are in the history. */
  lemma {:induction false} HistoryGrows(ss: seq<System>, at: seq<bool>, ops: seq<Op>, i: nat, n: nat)
    requires IsSystemRun(ss, at, ops) && i <= n < |ss|
    ensures ss[i].a.msgs <= ss[n].a.msgs && ss[i].a.ends <= ss[n].a.ends
    decreases n
  {
    hide Step, Possible, Out;
    if i < n {
      HistoryGrows(ss, at, ops, i, n - 1);
      assert Next(ss[n - 1], ss[n], at[n - 1], ops[n - 1]);
    }
  }

  /** Step i of the run is a Send at the first endpoint that was accepted. */
  ghost predicate Accepts(ss: seq<System>, at: seq<bool>, ops: seq<Op>, i: nat) {
    i < |ops| && i < |at| && i < |ss| && at[i] && ops[i].OpSend? && Send(ss[i].a.k, ops[i].buffer).code == 0
  }

  /** What the caller of Send can work out beforehand. */
  function Fragmented(k: State, buffer: seq<byte>): nat { FragmentCount(|buffer|, k.cfg.mss) }

  lemma AcceptedCount(conv: u32, w: u32, ss: seq<System>, at: seq<bool>, ops: seq<Op>, i: nat, n: nat)
    requires IsWindowRun(conv, w, ss, at, ops) && Accepts(ss, at, ops, i) && i < n < |ss|
    ensures var j := |ss[i].a.msgs|;
            && j < |ss[n].a.msgs| && j < |ss[n].a.ends| && ss[n].a.msgs[j] == ops[i].buffer
            && Count(ss[n].a, j) == Fragmented(ss[i].a.k, ops[i].buffer)
  {
    hide Send, NodeStep, Step, Fragmented, FragmentCount, SystemOk, RcvWindow, IsGroup, Sized;
    RunsStayWindowed(conv, w, ss, at, ops, i);
    var x, buffer := ss[i].a, ops[i].buffer;
    assert Next(ss[i], ss[i + 1], at[i], ops[i]);
    SendNodeShape(x, buffer);
    var q := SendIsMessage(x.k, buffer);
    assert Fragmented(x.k, buffer) == |q| by { FragmentedIs(x.k, buffer); }
    HistoryGrows(ss, at, ops, i + 1, n);
    var j := |x.msgs|;
    assert ss[i + 1].a.msgs[j] == buffer && ss[n].a.msgs[j] == ss[i + 1].a.msgs[j];
    assert Start(ss[n].a.ends, j) == Start(x.ends, j) && ss[n].a.ends[j] == ss[i + 1].a.ends[j];
  }

  lemma FragmentedIs(k: State, buffer: seq<byte>)
    ensures Fragmented(k, buffer) == FragmentCount(|buffer|, k.cfg.mss)
  {
  }

  /** One step reads at most one message, and only one that can be read. */
  lemma GotStep(s: System, s': System, atA: bool, op: Op)
    requires Next(s, s', atA, op)
    ensures s'.b.got == s.b.got || (|s'.b.got| == |s.b.got| + 1 && PeekSize(s.b.k.rcv.queue) >= 0)
  {
    hide Step, Possible, Out, PeekSize, MoveAvailable, MessageEnd;
  }

  /** A message of more fragments than the receiver's window is never read, nor is
      any message behind it, in every later state of every run. */
  lemma {:induction false} TooLongBlocks(conv: u32, w: u32, ss: seq<System>, at: seq<bool>, ops: seq<Op>, i: nat, n: nat)
    requires IsWindowRun(conv, w, ss, at, ops) && Accepts(ss, at, ops, i) && i < n < |ss|
    requires Fragmented(ss[i].a.k, ops[i].buffer) > w
    ensures |ss[n].b.got| <= |ss[i].a.msgs|
    decreases n
  {
    hide Send, Next, Fragmented, SystemOk, Sized, IsGroup;
    var j := |ss[i].a.msgs|;
    RunsStayWindowed(conv, w, ss, at, ops, n - 1);
    GotStep(ss[n - 1], ss[n], at[n - 1], ops[n - 1]);
    if i < n - 1 {
      TooLongBlocks(conv, w, ss, at, ops, i, n - 1);
      AcceptedCount(conv, w, ss, at, ops, i, n - 1);
      if |ss[n - 1].b.got| == j {
        assert RcvOk(ss[n - 1].b.k.rcv, ss[n - 1].a.log) by { SystemReceives(conv, ss[n - 1]); }
        ReadableWhenQueued(ss[n - 1].a, ss[n - 1].b, 0);
      }
    } else {
      if |ss[i].b.got| == j { NothingToRead(conv, ss[i]); }
    }
  }

  lemma SystemReceives(conv: u32, s: System)
    requires SystemOk(conv, s)
    ensures RcvOk(s.b.k.rcv, s.a.log)
  {
  }

  lemma NothingToRead(conv: u32, s: System)
    requires SystemOk(conv, s) && BothMessages(s) && |s.b.got| == |s.a.msgs|
    ensures PeekSize(s.b.k.rcv.queue) < 0
  {
    if PeekSize(s.b.k.rcv.queue) >= 0 { NextMessage(s.a, s.b); }
  }

  /** The exact condition, which the sender can test before it calls Send: once every
      fragment of the message has arrived and the messages before it have been read,
      the message can be read if and only if it has at most as many fragments as the
      receiver's window; and then Recv returns it. */
  lemma ReadableIff(conv: u32, w: u32, ss: seq<System>, at: seq<bool>, ops: seq<Op>, i: nat, n: nat, room: nat)
    requires IsWindowRun(conv, w, ss, at, ops) && Accepts(ss, at, ops, i) && i < n < |ss|
    requires |ss[n].b.got| == |ss[i].a.msgs| < |ss[n].a.ends|
    requires var e, j := ss[n].a.ends, |ss[n].b.got|; forall l :: Start(e, j) <= l < e[j] ==> Held(ss[n].b.k.rcv, l)
    ensures PeekSize(ss[n].b.k.rcv.queue) >= 0 <==> Fragmented(ss[i].a.k, ops[i].buffer) <= w
    ensures Fragmented(ss[i].a.k, ops[i].buffer) <= w && room >= |ops[i].buffer| ==>
              Recv(ss[n].b.k, room).n >= 0 && Recv(ss[n].b.k, room).data == ops[i].buffer
  {
    hide Send, Next, Fragmented, SystemOk, Sized, IsGroup, PeekSize, Recv, IsSystemRun, Held, RcvWindow;
    RunsStayWindowed(conv, w, ss, at, ops, n);
    AcceptedCount(conv, w, ss, at, ops, i, n);
    ReadableWhenHeld(conv, ss[n], w);
    SystemReceives(conv, ss[n]);
    ReadableWhenQueued(ss[n].a, ss[n].b, room);
  }
}
