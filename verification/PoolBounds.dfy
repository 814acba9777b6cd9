/** Pool buffers hold 1472 bytes, and Send and Input copy payloads into them.  Exactly
    when a copy would not fit, and runs in which none ever does. */
module PoolBounds {
  import opened Serial
  import opened KcpState
  import opened WireFormat
  import opened KcpWindows
  import opened Delivery
  import opened DeliveryRuns
  import opened DeliveryTheorems
  import opened KcpEngine
  import MessageDelivery
  import opened PacketSizes

  const POOL: int := 1472
  const POOL_MTU: int := 1496

  ghost predicate Small(q: seq<Segment>) { forall i :: 0 <= i < |q| ==> |q[i].data| <= POOL }

  ghost predicate SmallBuf(m: map<u32, Segment>) { forall sn :: sn in m ==> |m[sn].data| <= POOL }

  ghost predicate SmallRcv(r: Receiver) { Small(r.queue) && SmallBuf(r.buf) }

  // ------------------------------------------------------------------- Input

  /** The segment is copied, and does not fit. */
  predicate TakesLong(r: Receiver, w: Wire) {
    w.cmd == CMD_PUSH && InWindow(r, w.sn) && w.sn !in r.buf && |w.data| > POOL
  }

  lemma MovedSmall(r: Receiver)
    requires r.nxt in r.buf
    ensures SmallRcv(Moved(r)) <==> SmallRcv(r)
  {
    var r' := Moved(r);
    assert r'.queue == r.queue + [r.buf[r.nxt]];
    assert forall sn :: sn in r.buf ==> sn == r.nxt || sn in r'.buf;
    if SmallRcv(r') {
      assert forall i :: 0 <= i < |r.queue| ==> r.queue[i] == r'.queue[i];
      assert r'.queue[|r.queue|] == r.buf[r.nxt];
    }
  }

  lemma {:induction false} MoveSmall(r: Receiver)
    ensures SmallRcv(MoveAvailable(r)) <==> SmallRcv(r)
    decreases |r.buf|
  {
    hide SmallRcv, Moved;
    if r.nxt in r.buf && |r.queue| < r.wnd {
      MovedSmall(r);
      MoveSmall(Moved(r));
    }
  }

  lemma InsertSmall(m: map<u32, Segment>, sn: u32, g: Segment)
    requires sn !in m
    ensures SmallBuf(m[sn := g]) <==> SmallBuf(m) && |g.data| <= POOL
  {
    var m' := m[sn := g];
    assert forall e :: e in m ==> m'[e] == m[e];
    assert m'[sn] == g;
  }

  /** What is received stays within the pool's buffers exactly until a segment that is
      taken does not fit. */
  lemma SegmentFitsIff(r: Receiver, w: Wire)
    ensures SmallRcv(ReceiverAfter(r, w)) <==> SmallRcv(r) && !TakesLong(r, w)
  {
    hide MoveAvailable, Diff, W;
    if w.cmd == CMD_PUSH && InWindow(r, w.sn) {
      var m := if w.sn in r.buf then r.buf else r.buf[w.sn := Received(w)];
      MoveSmall(r.(buf := m));
      if w.sn !in r.buf { InsertSmall(r.buf, w.sn, Received(w)); }
    }
  }

  /** Some segment of the packet is taken and does not fit. */
  ghost predicate PacketTakesLong(k: State, ts: seq<Tagged>, regular: bool) {
    exists n :: 0 <= n < |ts| && TakesLong(Absorb(k, ts[..n], regular).k.rcv, ts[n].w)
  }

  lemma {:induction false} AbsorbFitsIff(k: State, ts: seq<Tagged>, regular: bool)
    requires SmallRcv(k.rcv)
    ensures SmallRcv(Absorb(k, ts, regular).k.rcv) <==> !PacketTakesLong(k, ts, regular)
  {
    hide SmallRcv, TakesLong, ReceiverAfter, SenderAfter, AcksAfter, WantsFlush;
    if ts != [] {
      var init, last := ts[..|ts|-1], ts[|ts|-1];
      AbsorbFitsIff(k, init, regular);
      SegmentFitsIff(Absorb(k, init, regular).k.rcv, last.w);
      assert forall n :: 0 <= n < |init| ==> init[..n] == ts[..n] && init[n] == ts[n];
      if n :| 0 <= n < |init| && TakesLong(Absorb(k, init[..n], regular).k.rcv, init[n].w) {
        assert TakesLong(Absorb(k, ts[..n], regular).k.rcv, ts[n].w);
      }
      if n :| 0 <= n < |ts| && TakesLong(Absorb(k, ts[..n], regular).k.rcv, ts[n].w) {
        if n < |init| { assert TakesLong(Absorb(k, init[..n], regular).k.rcv, init[n].w); }
      }
    }
  }

  /** Whatever bytes arrive: Input leaves nothing longer than a pool buffer behind if
      and only if no segment it took was longer. */
  lemma InputFitsIff(k: State, ts: seq<Tagged>, code: int, regular: bool, ackNoDelay: bool, clock: seq<u32>)
    requires SmallRcv(k.rcv)
    ensures SmallRcv(Input(k, ts, code, regular, ackNoDelay, clock).k.rcv) <==> !PacketTakesLong(k, ts, regular)
  {
    hide Flush, Absorb, SmallRcv, PacketTakesLong, Grow, UpdateAck;
    AbsorbFitsIff(k, ts, regular);
    var a := Absorb(k, ts, regular);
    var k' := BeforeFlush(k, ts, regular, Now(clock, 0));
    assert k'.rcv == a.k.rcv by { SettleReceives(a, k.snd.una, regular, Now(clock, 0)); }
    FlushKeepsReceiver(k', InputFlush(a.flush, k', ackNoDelay).Full?, clock);
  }

  lemma SettleReceives(a: Absorbed, una: u32, regular: bool, now: u32)
    ensures Settle(a, una, regular, now).rcv == a.k.rcv
  {
  }

  // -------------------------------------------------------------------- Send

  /** Send makes or extends a segment beyond a pool buffer. */
  predicate SendOverruns(q: seq<Segment>, buffer: seq<byte>, mss: pos32, stream: bool) {
    var x := Extension(q, |buffer|, mss, stream);
    var rest := |buffer| - x;
    || (x > 0 && |q[|q|-1].data| + x > POOL)
    || (buffer != [] && !(stream && rest == 0) && FragmentCount(rest, mss) <= 255 && Min(rest, mss) > POOL)
  }

  lemma SmallConcat(a: seq<Segment>, b: seq<Segment>)
    ensures Small(a + b) <==> Small(a) && Small(b)
  {
    if Small(a + b) {
      assert forall i :: 0 <= i < |a| ==> (a + b)[i] == a[i];
      assert forall i :: 0 <= i < |b| ==> (a + b)[|a| + i] == b[i];
    }
  }

  lemma OneSmall(g: Segment)
    ensures Small([g]) <==> |g.data| <= POOL
  {
    assert [g][0] == g;
  }

  lemma NoneSmall(data: seq<byte>, mss: pos32, stream: bool)
    ensures Small(Fragments(data, mss, 0, stream))
  {
  }

  lemma {:induction false} FragmentsSmall(data: seq<byte>, mss: pos32, count: nat, stream: bool)
    requires count <= 255
    ensures Min(|data|, mss) <= POOL ==> Small(Fragments(data, mss, count, stream))
    ensures count > 0 && Min(|data|, mss) > POOL ==> !Small(Fragments(data, mss, count, stream))
    decreases count
  {
    hide Fragments, Small;
    if count == 0 {
      NoneSmall(data, mss, stream);
    } else {
      FirstFragment(data, mss, count, stream);
      var size := Min(|data|, mss);
      var g, rest := NewSegment(if stream then 0 else count - 1, data[..size]), data[size..];
      FragmentsSmall(rest, mss, count - 1, stream);
      OneSmall(g);
      SmallConcat([g], Fragments(rest, mss, count - 1, stream));
    }
  }

  lemma ExtendedSmall(q: seq<Segment>, more: seq<byte>)
    requires Small(q) && (more != [] ==> q != [])
    ensures Small(Extended(q, more)) <==> more == [] || |q[|q|-1].data| + |more| <= POOL
  {
    if more != [] {
      var e := Extended(q, more);
      assert |e[|q|-1].data| == |q[|q|-1].data| + |more|;
    }
  }

  /** Send leaves nothing longer than a pool buffer in the queue if and only if it
      neither makes nor extends such a segment. */
  lemma SendFitsIff(q: seq<Segment>, buffer: seq<byte>, mss: pos32, stream: bool)
    requires Small(q)
    ensures Small(Enqueue(q, buffer, mss, stream).queue) <==> !SendOverruns(q, buffer, mss, stream)
  {
    hide Small, Fragments, Extended, FragmentCount;
    if buffer != [] {
      var x := Extension(q, |buffer|, mss, stream);
      var rest := buffer[x..];
      ExtendedSmall(q, buffer[..x]);
      MessageDelivery.PositiveFragmentCount(|rest|, mss);
      if FragmentCount(|rest|, mss) <= 255 {
        FragmentsSmall(rest, mss, FragmentCount(|rest|, mss), stream);
        SmallConcat(Extended(q, buffer[..x]), Fragments(rest, mss, FragmentCount(|rest|, mss), stream));
      }
    }
  }

  // ------------------------------------------------------------- one endpoint

  lemma RoomIsSmall(q: seq<Segment>)
    requires Fit(q, POOL_MTU)
    ensures Small(q)
  {
  }

  /** While no MTU above 1496 has been set, everything waiting at an endpoint fits a
      pool buffer, whatever bytes arrive; so no Send overruns one. */
  lemma SendsFit(conv: u32, ks: seq<State>, ops: seq<Op>, n: nat, buffer: seq<byte>)
    requires IsRun(ks, ops) && ks[0] == Fresh(conv) && n < |ks| && LargestMtu(ops[..n]) <= POOL_MTU
    ensures Small(ks[n].snd.buf) && Small(ks[n].snd.queue)
    ensures var k := ks[n]; !SendOverruns(k.snd.queue, buffer, k.cfg.mss, k.cfg.stream)
  {
    hide Step, Enqueue, SendOverruns, Small, Fresh;
    RunsKeepRoom(conv, ks, ops, n);
    var k := ks[n];
    MoreRoom(k, LargestMtu(ops[..n]), POOL_MTU);
    RoomIsSmall(k.snd.buf);
    RoomIsSmall(k.snd.queue);
    SendFitsIff(k.snd.queue, buffer, k.cfg.mss, k.cfg.stream);
    EnqueueFits(k.snd.queue, buffer, k.cfg.mss, k.cfg.stream, POOL_MTU);
    RoomIsSmall(Enqueue(k.snd.queue, buffer, k.cfg.mss, k.cfg.stream).queue);
  }

  // ------------------------------------------------------------ two endpoints

  ghost predicate LogSmall(log: seq<Frag>) { forall i :: 0 <= i < |log| ==> |log[i].data| <= POOL }

  ghost predicate NodeSmall(x: Node) { Room(x.k, POOL_MTU) && LogSmall(x.log) }

  lemma NumberedSmall(k: State, k': State)
    requires Room(k, POOL_MTU)
    ensures LogSmall(NewlyNumbered(k, k'))
  {
  }

  lemma NodeStepShape(x: Node, op: Op)
    ensures NodeStep(x, op).k == Step(x.k, op) && NodeStep(x, op).log == x.log + NewlyNumbered(x.k, Step(x.k, op))
  {
    hide Step;
  }

  lemma NodeStepSmall(x: Node, op: Op)
    requires Good(x.k) && NodeSmall(x) && (op.OpSetMtu? ==> op.mtu <= POOL_MTU)
    ensures NodeSmall(NodeStep(x, op))
  {
    hide Step, NodeStep, Room, Good, NewlyNumbered;
    NodeStepShape(x, op);
    StepRoom(x.k, op, POOL_MTU);
    NumberedSmall(x.k, Step(x.k, op));
  }

  /** Both endpoints never set an MTU above 1496. */
  ghost predicate PoolMtus(ops: seq<Op>) { forall i :: 0 <= i < |ops| && ops[i].OpSetMtu? ==> ops[i].mtu <= POOL_MTU }

  lemma {:induction false} RunsStaySmall(conv: u32, ss: seq<System>, at: seq<bool>, ops: seq<Op>, n: nat)
    requires IsSystemRun(ss, at, ops) && ss[0] == NewSystem(conv) && n < |ss| && PoolMtus(ops)
    ensures SystemOk(conv, ss[n]) && NodeSmall(ss[n].a) && NodeSmall(ss[n].b)
  {
    hide SystemOk, NodeStep, Step, Good, Possible, Out;
    NewSystemOk(conv);
    RunsStayOk(conv, ss, at, ops, n);
    if n > 0 {
      RunsStaySmall(conv, ss, at, ops, n - 1);
      var s := ss[n - 1];
      assert Next(s, ss[n], at[n - 1], ops[n - 1]);
      assert Good(s.a.k) && Good(s.b.k) by { GoodBoth(conv, s); }
      if at[n - 1] { NodeStepSmall(s.a, ops[n - 1]); } else { NodeStepSmall(s.b, ops[n - 1]); }
    }
  }

  lemma GoodBoth(conv: u32, s: System)
    requires SystemOk(conv, s)
    ensures Good(s.a.k) && Good(s.b.k) && RcvOk(s.b.k.rcv, s.a.log) && RcvOk(s.a.k.rcv, s.b.log)
  {
  }

  lemma ReceivedSmall(r: Receiver, log: seq<Frag>)
    requires RcvOk(r, log) && LogSmall(log)
    ensures SmallRcv(r)
  {
    forall i | 0 <= i < |r.queue| ensures |r.queue[i].data| <= POOL {
      assert FragOf(r.queue[i]) == log[r.total - |r.queue| + i];
    }
    forall sn | sn in r.buf ensures |r.buf[sn].data| <= POOL {
      var l := r.total + Offset(r, sn);
      assert W(l) == sn by { RoundTheCircle(r.total, sn); }
      assert FragOf(r.buf[W(l)]) == log[l];
    }
  }

  /** Two endpoints with MTUs of at most 1496: in every state of every run everything
      sent and received fits a pool buffer at both of them, so no operation of the run
      ever overruns one. */
  lemma PoolSafety(conv: u32, ss: seq<System>, at: seq<bool>, ops: seq<Op>, n: nat)
    requires IsSystemRun(ss, at, ops) && ss[0] == NewSystem(conv) && n < |ss| && PoolMtus(ops)
    ensures var s := ss[n]; NodeSmall(s.a) && NodeSmall(s.b) && SmallRcv(s.a.k.rcv) && SmallRcv(s.b.k.rcv)
    ensures n < |ops| ==> !Overruns(if at[n] then ss[n].a.k else ss[n].b.k, ops[n])
  {
    hide SystemOk, NodeStep, Step, Good, Possible, Out, NodeSmall, Overruns, RcvOk;
    RunsSmall(conv, ss, at, ops, n);
    if n < |ops| {
      RunsSmall(conv, ss, at, ops, n + 1);
      assert Next(ss[n], ss[n + 1], at[n], ops[n]);
      var x := if at[n] then ss[n].a else ss[n].b;
      assert NodeStep(x, ops[n]).k == Step(x.k, ops[n]) by { NodeStepShape(x, ops[n]); }
      SmallStepFits(x, ops[n]);
    }
  }

  lemma RunsSmall(conv: u32, ss: seq<System>, at: seq<bool>, ops: seq<Op>, n: nat)
    requires IsSystemRun(ss, at, ops) && ss[0] == NewSystem(conv) && n < |ss| && PoolMtus(ops)
    ensures var s := ss[n]; NodeSmall(s.a) && NodeSmall(s.b) && SmallRcv(s.a.k.rcv) && SmallRcv(s.b.k.rcv)
  {
    hide SystemOk, Good, RcvOk, IsSystemRun, Room, NewSystem;
    RunsStaySmall(conv, ss, at, ops, n);
    GoodBoth(conv, ss[n]);
    ReceivedSmall(ss[n].b.k.rcv, ss[n].a.log);
    ReceivedSmall(ss[n].a.k.rcv, ss[n].b.log);
  }

  /** The operation copies more into a pool buffer than it holds. */
  ghost predicate Overruns(k: State, op: Op) {
    || (op.OpSend? && SendOverruns(k.snd.queue, op.buffer, k.cfg.mss, k.cfg.stream))
    || (op.OpInput? && var p := Parse(k.cfg.conv, op.data); PacketTakesLong(k, TagAll(p.segs, op.ids), op.regular))
  }

  lemma SmallStepFits(x: Node, op: Op)
    requires NodeSmall(x) && SmallRcv(x.k.rcv) && SmallRcv(Step(x.k, op).rcv) && NodeSmall(NodeStep(x, op))
    ensures !Overruns(x.k, op)
  {
    hide Enqueue, Input, SendOverruns, PacketTakesLong, Small, SmallRcv, Parse, TagAll, LogSmall;
    var k := x.k;
    if op.OpSend? {
      RoomIsSmall(k.snd.queue);
      SendFitsIff(k.snd.queue, op.buffer, k.cfg.mss, k.cfg.stream);
      NodeStepShape(x, op);
      RoomIsSmall(Step(k, op).snd.queue);
    } else if op.OpInput? {
      var p := Parse(k.cfg.conv, op.data);
      InputFitsIff(k, TagAll(p.segs, op.ids), p.code, op.regular, op.ackNoDelay, op.clock);
    }
  }
}
