/** Flow control and acknowledgement coverage over whole runs. */
module FlowControl {
  import opened Serial
  import opened KcpState
  import opened WireFormat
  import opened KcpWindows
  import opened Delivery
  import opened DeliveryRuns
  import opened DeliveryTheorems
  import Headers

  /** The sender never believes in a larger window than the peer's, and never has
      numbered beyond the top of the peer's receive window. */
  ghost predicate Flow(x: Node, y: Node, yx: set<Packet>, wnd: u32) {
    && y.k.rcv.wnd == wnd
    && x.k.cong.rmtWnd <= wnd
    && x.k.snd.total <= y.k.rcv.total + wnd
    && Advertise(yx, wnd)
  }

  ghost predicate Advertise(net: set<Packet>, wnd: u32) { forall p :: p in net ==> Advertises(p, wnd) }

  ghost predicate Advertises(p: Packet, wnd: u32) { forall i :: 0 <= i < |p| ==> p[i].w.wnd <= wnd }

  // ------------------------------------------------------ steps of the sender

  lemma AdmitWithinWindow(k: State, full: bool, clock: seq<u32>)
    ensures var k' := Flush(k, full, clock).k;
            k'.snd.total <= Max(k.snd.total, Base(k.snd) + k.cong.rmtWnd) && k'.cong.rmtWnd == k.cong.rmtWnd
  {
  }

  lemma {:induction false} AbsorbWindow(k: State, p: Packet, regular: bool, wnd: u32)
    requires k.cong.rmtWnd <= wnd && Advertises(p, wnd)
    ensures Absorb(k, p, regular).k.cong.rmtWnd <= wnd
  {
    if p != [] { AbsorbWindow(k, p[..|p|-1], regular, wnd); }
  }

  lemma SettleWindow(a: Absorbed, una: u32, regular: bool, now: u32)
    ensures Settle(a, una, regular, now).cong.rmtWnd == a.k.cong.rmtWnd
  {
  }

  lemma SenderFlow(x: Node, y: Node, xy: set<Packet>, yx: set<Packet>, op: Op, wnd: u32)
    requires Good(x.k) && Direction(x, y, xy, yx) && NetOk(x.k.cfg.conv, yx) && Possible(x.k, op, yx)
    requires Flow(x, y, yx, wnd)
    ensures Flow(NodeStep(x, op), y, yx, wnd)
  {
    if op.OpFlush? {
      AdmitWithinWindow(x.k, op.full, op.clock);
    } else if op.OpInput? {
      InputFlow(x, y, xy, yx, op, wnd);
    } else if op.OpSend? {
      SendOnlyQueues(x.k, op.buffer);
    } else {
      OtherFlow(x.k, op);
    }
  }

  lemma OtherFlow(k: State, op: Op)
    requires !op.OpSend? && !op.OpInput? && !op.OpFlush?
    ensures Step(k, op).snd.total == k.snd.total && Step(k, op).cong == k.cong
  {
  }

  lemma InputFlow(x: Node, y: Node, xy: set<Packet>, yx: set<Packet>, op: Op, wnd: u32)
    requires Good(x.k) && Direction(x, y, xy, yx) && NetOk(x.k.cfg.conv, yx) && op.OpInput? && Possible(x.k, op, yx)
    requires Flow(x, y, yx, wnd)
    ensures Flow(NodeStep(x, op), y, yx, wnd)
  {
    var p :| p in yx && Delivers(x.k, op, p);
    var k' := InputWithinWindow(x, y, yx, op, p, wnd);
  }

  lemma InputWithinWindow(x: Node, y: Node, yx: set<Packet>, op: Op, p: Packet, wnd: u32) returns (k': State)
    requires SndOk(x.k.snd, x.log, y.k.rcv) && RcvOk(y.k.rcv, x.log) && AckNet(yx, y.k.rcv) && NetOk(x.k.cfg.conv, yx)
    requires op.OpInput? && p in yx && Delivers(x.k, op, p) && Flow(x, y, yx, wnd)
    ensures k' == Step(x.k, op) && k'.cong.rmtWnd <= wnd && k'.snd.total <= y.k.rcv.total + wnd
  {
    k' := Step(x.k, op);
    var k1, choice := InputThenFlush(x.k, op, p);
    AbsorbFlow(x, y, yx, op, p, wnd);
    if !choice.NoFlush? { AdmitWithinWindow(k1, choice.Full?, op.clock); }
  }

  /** Absorbing a packet keeps the believed window and does not number anything. */
  lemma AbsorbFlow(x: Node, y: Node, yx: set<Packet>, op: Op, p: Packet, wnd: u32)
    requires SndOk(x.k.snd, x.log, y.k.rcv) && RcvOk(y.k.rcv, x.log) && AckNet(yx, y.k.rcv)
    requires op.OpInput? && p in yx && Delivers(x.k, op, p) && Flow(x, y, yx, wnd)
    ensures var k1 := BeforeFlush(x.k, p, op.regular, Now(op.clock, 0));
            k1.cong.rmtWnd <= wnd && k1.snd.total == x.k.snd.total && Base(k1.snd) <= y.k.rcv.total
  {
    AbsorbWindow(x.k, p, op.regular, wnd);
    SettleWindow(Absorb(x.k, p, op.regular), x.k.snd.una, op.regular, Now(op.clock, 0));
    BeforeFlushKeeps(x.k, p, op.regular, Now(op.clock, 0));
    assert p[..|p|] == p;
    AbsorbSenderOk(x.k, p, |p|, op.regular, x.log, y.k.rcv);
  }

  // ---------------------------------------------------- steps of the receiver

  lemma ReceiverFlow(x: Node, y: Node, xy: set<Packet>, yx: set<Packet>, op: Op, wnd: u32)
    requires Good(y.k) && Direction(x, y, xy, yx) && NetOk(y.k.cfg.conv, xy) && Possible(y.k, op, xy)
    requires Flow(x, y, yx, wnd) && KeepsRcvWnd(op)
    ensures Flow(x, NodeStep(y, op), yx + Out(y.k, op), wnd)
  {
    StepKeeps(y.k, op);
    ReceiverStep(x, y, xy, yx, op);
    TotalGrows(x, y, xy, yx, op);
    AdvertisedWindow(y, xy, op);
  }

  lemma InputTotalGrows(x: Node, y: Node, xy: set<Packet>, yx: set<Packet>, op: Op, p: Packet)
    requires Good(y.k) && Direction(x, y, xy, yx) && NetOk(y.k.cfg.conv, xy) && op.OpInput? && p in xy && Delivers(y.k, op, p)
    ensures y.k.rcv.total <= Step(y.k, op).rcv.total
  {
    hide Flush, Absorb, RcvInv, Input, FlushOut;
    var k1, choice := InputThenFlush(y.k, op, p);
    BeforeFlushKeeps(y.k, p, op.regular, Now(op.clock, 0));
    assert p[..|p|] == p;
    AbsorbReceiverOk(y.k, p, |p|, op.regular, x.log);
    FlushKeepsReceiver(k1, choice.Full?, op.clock);
  }

  lemma RecvTotalGrows(x: Node, y: Node, xy: set<Packet>, yx: set<Packet>, room: nat)
    requires Direction(x, y, xy, yx)
    ensures y.k.rcv.total <= Recv(y.k, room).k.rcv.total
  {
    if Recv(y.k, room).n >= 0 {
      RecvShape(y.k, room);
      ReadOk(y.k.rcv, x.log, y.got, MessageEnd(y.k.rcv.queue));
    }
  }

  /** The receiver's position never goes back. */
  lemma TotalGrows(x: Node, y: Node, xy: set<Packet>, yx: set<Packet>, op: Op)
    requires Good(y.k) && Direction(x, y, xy, yx) && NetOk(y.k.cfg.conv, xy) && Possible(y.k, op, xy)
    ensures y.k.rcv.total <= Step(y.k, op).rcv.total
  {
    hide Flush, Recv, Input, InputBytes;
    if op.OpInput? {
      var p :| p in xy && Delivers(y.k, op, p);
      InputTotalGrows(x, y, xy, yx, op, p);
    } else if op.OpRecv? {
      RecvTotalGrows(x, y, xy, yx, op.room);
    } else if op.OpFlush? {
      FlushKeepsReceiver(y.k, op.full, op.clock);
    } else {
      QuietStep(y.k, op, x.log);
    }
  }

  lemma UnusedWithin(r: Receiver)
    ensures WndUnused(r) <= r.wnd
  {
  }

  lemma FlushAdvertises(k: State, full: bool, clock: seq<u32>)
    ensures Advertise(FlushOut(k, full, clock), k.rcv.wnd)
  {
    hide Flush;
    forall p: Packet | p in FlushOut(k, full, clock) ensures Advertises(p, k.rcv.wnd) {
      forall i | 0 <= i < |p| ensures p[i].w.wnd <= k.rcv.wnd {
        FlushEmits(k, full, clock, p, i);
        UnusedWithin(k.rcv);
      }
    }
  }

  lemma AllTell(k: State, op: Op)
    ensures var r := Step(k, op).rcv;
            |r.queue| <= r.wnd <= WND_MAX ==> forall p: Packet, i :: p in Out(k, op) && 0 <= i < |p| ==> Headers.Tells(p[i].w, r)
  {
    hide Step, Emitted, Headers.Tells;
    var r := Step(k, op).rcv;
    if |r.queue| <= r.wnd <= WND_MAX {
      forall p: Packet, i | p in Out(k, op) && 0 <= i < |p| ensures Headers.Tells(p[i].w, r) { Headers.StepTells(k, op, p, i); }
    }
  }

  /** Every emitted segment advertises at most the receive window, and exactly what is
      free of it after the operation when that fits the header's 16 bits. */
  lemma AdvertisedWindow(y: Node, net: set<Packet>, op: Op)
    requires Good(y.k) && NetOk(y.k.cfg.conv, net) && Possible(y.k, op, net)
    ensures Advertise(Out(y.k, op), y.k.rcv.wnd)
    ensures var r := Step(y.k, op).rcv;
            |r.queue| <= r.wnd <= WND_MAX ==> forall p: Packet, i :: p in Out(y.k, op) && 0 <= i < |p| ==> Headers.Tells(p[i].w, r)
  {
    AllTell(y.k, op);
    if op.OpFlush? {
      FlushAdvertises(y.k, op.full, op.clock);
    } else if op.OpInput? {
      var d :| d in net && Delivers(y.k, op, d);
      var y1, choice := InputSplits(y, op, d);
      AbsorbKeeps(y.k, d, op.regular);
      if !choice.NoFlush? { FlushAdvertises(y1.k, choice.Full?, op.clock); }
    }
  }

  // --------------------------------------------------------------------- runs

  ghost predicate BothFlow(s: System, wndA: u32, wndB: u32) {
    Flow(s.a, s.b, s.ba, wndB) && Flow(s.b, s.a, s.ab, wndA)
  }

  lemma FlowStep(conv: u32, s: System, s': System, atA: bool, op: Op, wndA: u32, wndB: u32)
    requires SystemOk(conv, s) && Next(s, s', atA, op) && BothFlow(s, wndA, wndB) && KeepsRcvWnd(op)
    ensures BothFlow(s', wndA, wndB)
  {
    if atA {
      SenderFlow(s.a, s.b, s.ab, s.ba, op, wndB);
      ReceiverFlow(s.b, s.a, s.ba, s.ab, op, wndA);
    } else {
      SenderFlow(s.b, s.a, s.ba, s.ab, op, wndA);
      ReceiverFlow(s.a, s.b, s.ab, s.ba, op, wndB);
    }
  }

  /** Endpoints whose receive windows are set once, before any traffic. */
  function Sized(conv: u32, wnd: u32): Node { NewNode(conv).(k := WndSize(Fresh(conv), 0, wnd)) }

  lemma SizedNode(conv: u32, wnd: u32)
    requires wnd > 0
    ensures var k := Sized(conv, wnd).k;
            Good(k) && k.cfg.conv == conv && k.rcv.wnd == wnd && k.cong.rmtWnd == WND_DEF && k.snd.total == 0 == k.rcv.total
  {
  }

  lemma SizedDirection(conv: u32, wndA: u32, wndB: u32)
    ensures Direction(Sized(conv, wndA), Sized(conv, wndB), {}, {})
  {
    hide Direction;
    EmptyDirection(Sized(conv, wndA), Sized(conv, wndB));
  }

  lemma SizedOk(conv: u32, wndA: u32, wndB: u32)
    requires wndA > 0 && wndB > 0
    ensures var s := System(Sized(conv, wndA), Sized(conv, wndB), {}, {});
            SystemOk(conv, s) && (wndA >= WND_DEF && wndB >= WND_DEF ==> BothFlow(s, wndA, wndB))
  {
    hide Good, Direction, WndSize;
    SizedNode(conv, wndA);
    SizedNode(conv, wndB);
    SizedDirection(conv, wndA, wndB);
    SizedDirection(conv, wndB, wndA);
  }

  lemma {:induction false} RunsKeepFlow(conv: u32, wndA: u32, wndB: u32, ss: seq<System>, at: seq<bool>, ops: seq<Op>, n: nat)
    requires IsSystemRun(ss, at, ops) && n < |ss| && SystemOk(conv, ss[0]) && BothFlow(ss[0], wndA, wndB)
    requires forall i :: 0 <= i < |ops| ==> KeepsRcvWnd(ops[i])
    ensures BothFlow(ss[n], wndA, wndB)
  {
    hide SystemOk, BothFlow, Next;
    if n > 0 {
      RunsKeepFlow(conv, wndA, wndB, ss, at, ops, n - 1);
      RunsStayOk(conv, ss, at, ops, n - 1);
      FlowStep(conv, ss[n-1], ss[n], at[n-1], ops[n-1], wndA, wndB);
    }
  }

  /** Flow control: with receive windows fixed at 32 or more, every data segment
      in flight lies below the top of the peer's receive window, so one that is
      not yet delivered is inside it and will be taken. */
  lemma PushesFitWindow(conv: u32, wndA: u32, wndB: u32, ss: seq<System>, at: seq<bool>, ops: seq<Op>, n: nat,
                        p: Packet, i: nat)
    requires IsSystemRun(ss, at, ops) && n < |ss|
    requires ss[0] == System(Sized(conv, wndA), Sized(conv, wndB), {}, {}) && wndA >= WND_DEF && WND_DEF <= wndB <= HALF
    requires forall i :: 0 <= i < |ops| ==> KeepsRcvWnd(ops[i])
    requires p in ss[n].ab && i < |p| && p[i].w.cmd == CMD_PUSH
    ensures var r := ss[n].b.k.rcv;
            && p[i].id < r.total + wndB
            && (p[i].id >= r.total ==> InWindow(r, p[i].w.sn))
  {
    SizedOk(conv, wndA, wndB);
    RunsStayOk(conv, ss, at, ops, n);
    RunsKeepFlow(conv, wndA, wndB, ss, at, ops, n);
    var r, t := ss[n].b.k.rcv, p[i];
    assert PushPacket(p, ss[n].a.log) && PushOk(t, ss[n].a.log);
    if t.id >= r.total {
      OffsetOf(r, t.id);
      InWindowMeans(r, t.w.sn);
    }
  }

  // ---------------------------------------------------- acknowledgement coverage

  lemma {:induction false} PutsContain(items: seq<Item>, j: nat)
    requires j < |items| && items[j].Put?
    ensures items[j].t in Puts(items)
  {
    if j < |items| - 1 { PutsContain(items[..|items|-1], j); }
  }

  lemma AckEmitted(k: State, full: bool, clock: seq<u32>, j: nat)
    requires j < |k.acks| && AckSent(k, j)
    ensures exists p :: p in Flush(k, full, clock).packets && Control(k, CMD_ACK, k.acks[j]) in p
  {
    var items := FlushItems(k, full, clock);
    assert items[j] == AckItems(k)[j] == Put(Control(k, CMD_ACK, k.acks[j]));
    PutsContain(items, j);
    PacketsPartition(k.cfg.mtu, items);
    FlattenFinds(Packets(k.cfg.mtu, items), items[j].t);
  }

  /** A pending acknowledgement is covered by a segment: repeated, or below its una. */
  ghost predicate Covered(a: AckItem, t: Tagged) {
    t.w.cmd == CMD_ACK && ((t.w.sn == a.sn && t.id == a.id) || a.id < t.unaId)
  }

  /** Every flush covers every pending acknowledgement, by an explicit ACK or by
      a una above it, and leaves none pending. */
  lemma FlushCoversAcks(conv: u32, s: System, full: bool, clock: seq<u32>, j: nat)
    requires SystemOk(conv, s) && j < |s.b.k.acks|
    ensures Flush(s.b.k, full, clock).k.acks == []
    ensures exists p, t :: p in Flush(s.b.k, full, clock).packets && t in p && Covered(s.b.k.acks[j], t)
  {
    var k := s.b.k;
    var j' := if AckSent(k, j) then j else |k.acks| - 1;
    AckEmitted(k, full, clock, j');
    var p :| p in Flush(k, full, clock).packets && Control(k, CMD_ACK, k.acks[j']) in p;
    if !AckSent(k, j) { SuppressedIsBelow(s.a.log, k, j); }
    assert Covered(k.acks[j], Control(k, CMD_ACK, k.acks[j']));
  }

  /** In every run, every flush at either endpoint covers what it has to acknowledge. */
  lemma RunsCoverAcks(conv: u32, ss: seq<System>, at: seq<bool>, ops: seq<Op>, n: nat, atA: bool, full: bool, clock: seq<u32>, j: nat)
    requires IsSystemRun(ss, at, ops) && SystemOk(conv, ss[0]) && n < |ss|
    requires var k := if atA then ss[n].a.k else ss[n].b.k; j < |k.acks|
    ensures var k := if atA then ss[n].a.k else ss[n].b.k;
            var f := Flush(k, full, clock);
            f.k.acks == [] && exists p, t :: p in f.packets && t in p && Covered(k.acks[j], t)
  {
    hide Flush, IsSystemRun;
    RunsStayOk(conv, ss, at, ops, n);
    FlushCoversAcks(conv, if atA then Swap(ss[n]) else ss[n], full, clock, j);
  }

  lemma SuppressedIsBelow(log: seq<Frag>, k: State, j: nat)
    requires RcvOk(k.rcv, log) && AcksOk(k.acks, k.rcv) && j < |k.acks| && !AckSent(k, j)
    ensures k.acks[j].id < k.rcv.total
  {
    var id := k.acks[j].id;
    if id >= k.rcv.total { DiffIsUnboundedDifference(id, k.rcv.total); }
  }
}
