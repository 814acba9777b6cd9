/** Concrete runs behind the exceptions: each shows that a natural claim about the
    protocol fails of a state that is reached from a new endpoint. */
module Instances {
  import opened Serial
  import opened KcpState
  import opened WireFormat
  import opened KcpWindows
  import opened Delivery
  import opened DeliveryRuns
  import opened DeliveryTheorems
  import opened MessageDelivery
  import opened FlowControl
  import opened MessageWindow

  // ------------------------------------------- a refused Send that changed the queue

  ghost function Wide(): seq<byte> { seq(513, _ => 0) }

  ghost function StreamOps(): seq<Op> { [OpSetMtu(26), OpStream(true), OpSend([5]), OpSend(Wide())] }

  function Waiting(data: seq<byte>): State {
    var k := SetMtu(Fresh(0), 26);
    k.(cfg := k.cfg.(stream := true), snd := k.snd.(queue := [NewSegment(0, data)]))
  }

  lemma SendsFive()
    ensures var k := SetMtu(Fresh(0), 26);
            Send(k.(cfg := k.cfg.(stream := true)), [5]) == SendResult(Waiting([5]), 0)
  {
    var five: seq<byte> := [5];
    assert five[0..] == five && five[..1] == five;
    assert Fragments(five, 2, 1, true) == [NewSegment(0, five)];
  }

  lemma SendsWide()
    ensures Send(Waiting([5]), Wide()) == SendResult(Waiting([5, 0]), -2)
  {
    var k, b := Waiting([5]), Wide();
    assert Extension(k.snd.queue, |b|, 2, true) == 1 && FragmentCount(512, 2) == 256;
    assert b[..1] == [0] && [5] + b[..1] == [5, 0];
    assert |b[1..]| == 512;
    assert Extended(k.snd.queue, b[..1]) == [NewSegment(0, [5, 0])];
  }

  /** With an mss of 2 and one byte waiting, sending 513 bytes in stream mode is
      refused after one of them has been taken. */
  lemma RefusedSendExample() returns (ks: seq<State>)
    ensures IsRun(ks, StreamOps()) && ks[0] == Fresh(0)
    ensures Send(ks[3], Wide()).code == -2 && ks[3].snd.queue == [NewSegment(0, [5])] && ks[4].snd.queue == [NewSegment(0, [5, 0])]
  {
    hide Send, Wide;
    var k := SetMtu(Fresh(0), 26);
    SendsFive();
    SendsWide();
    ks := [Fresh(0), k, k.(cfg := k.cfg.(stream := true)), Waiting([5]), Waiting([5, 0])];
    assert ks[1] == Step(ks[0], OpSetMtu(26)) && ks[2] == Step(ks[1], OpStream(true));
    assert ks[3] == Step(ks[2], OpSend([5])) && ks[4] == Step(ks[3], OpSend(Wide()));
  }

  // ------------------------------------------------------- one packet, one segment

  ghost function InputOf(t: Tagged): Op { OpInput(EncodeAll([t]), [(t.id, t.unaId)], true, false, []) }

  lemma OneAbsorbed(k: State, t: Tagged)
    ensures Absorb(k, [t], true) == AbsorbOne(Absorbed(k, false, false, 0), t, true)
  {
    assert [t][..0] == [];
  }

  lemma OneParsed(k: State, t: Tagged)
    requires Sendable(k.cfg.conv, t.w)
    ensures InputBytes(k, EncodeAll([t]), [(t.id, t.unaId)], true, false, []) == Input(k, [t], 0, true, false, [])
  {
    hide Input, Parse, EncodeAll;
    PacketRoundTrip(k.cfg.conv, [t]);
    assert TagAll(Wires([t]), [(t.id, t.unaId)]) == [t];
  }

  /** What a data segment does to an endpoint with nothing in flight and few
      acknowledgements pending. */
  lemma PushAlone(k: State, t: Tagged)
    requires Sendable(k.cfg.conv, t.w) && t.w.cmd == CMD_PUSH && BelowWindowTop(k.rcv, t.w.sn)
    requires k.snd.buf == [] && k.snd.una == k.snd.nxt && t.w.una == k.snd.una && |k.acks| + 1 < k.cfg.mtu / OVERHEAD
    ensures Step(k, InputOf(t)) ==
              k.(cong := k.cong.(rmtWnd := t.w.wnd), rcv := ParseData(k.rcv, Received(t.w)), acks := k.acks + [AckItem(t.w.sn, t.w.ts, t.id)])
    ensures Emitted(k, InputOf(t)) == []
  {
    hide ParseData, Flush, Grow;
    OneParsed(k, t);
    OneAbsorbed(k, t);
    assert Cumulative(k.snd, t.w.una) == k.snd;
  }

  // ----------------------------------------------- a fragment that ends every message

  const MARKED: Tagged := Tagged(Wire(0, CMD_PUSH, 255, 32, 0, 0, 0, [7]), 0, 0)

  lemma MoveFirst(r: Receiver, g: Segment)
    requires r.queue == [] && r.buf == map[] && r.nxt == 0 == g.sn && r.total == 0 && 0 < r.wnd <= HALF
    ensures ParseData(r, g) == r.(queue := [g], nxt := 1, total := 1)
  {
    var r1 := r.(buf := r.buf[g.sn := g]);
    assert InWindow(r, 0);
    assert Moved(r1) == r.(queue := [g], nxt := 1, total := 1) by { assert r1.buf - {r1.nxt} == map[]; }
    assert MoveAvailable(Moved(r1)) == Moved(r1);
  }

  lemma MarkedArrives()
    ensures Step(Fresh(0), InputOf(MARKED)).rcv.queue == [Received(MARKED.w)]
  {
    hide Step, InputOf, Emitted, ParseData;
    PushAlone(Fresh(0), MARKED);
    MoveFirst(Fresh(0).rcv, Received(MARKED.w));
  }

  lemma MarkedIsMessage()
    ensures PeekSize([Received(MARKED.w)]) == 1
  {
    var q := [Received(MARKED.w)];
    assert q[1..] == [] && MessageEnd(q) == 1 && q[..MessageEnd(q)] == q;
    assert DataLen(q) == 1 by { assert q[..0] == []; }
  }

  /** A first fragment numbered 255, which only a foreign sender makes, is returned as
      a message of its own. */
  lemma MarkedFragmentExample() returns (ks: seq<State>)
    ensures IsRun(ks, [InputOf(MARKED)]) && ks[0] == Fresh(0)
    ensures ks[1].rcv.queue == [Received(MARKED.w)] && PeekSize(ks[1].rcv.queue) == 1
  {
    hide Step, InputOf, Fresh, PeekSize, Received;
    MarkedArrives();
    MarkedIsMessage();
    ks := [Fresh(0), Step(Fresh(0), InputOf(MARKED))];
  }

  // ---------------------------------------------------------- two first sends

  function Flies(g: Segment, c: TxContext): Segment {
    g.(rto := c.rto, resendts := W(0 + c.rto), xmit := 1, ts := 0, wnd := c.wnd, una := c.una)
  }

  lemma FirstFlies(t: Tx, g: Segment, i: nat, c: TxContext)
    requires !g.acked && g.xmit == 0 && c.clock == [] && t.current == 0 && c.cfg.deadLink > 1
    ensures var t', g' := TxOne(t, g, i, c), Flies(g, c);
            && t'.buf == t.buf + [g'] && t'.items == t.items + [Put(PushWire(g', c.base + i, c))]
            && t'.current == 0 && t'.dead == t.dead
  {
  }

  lemma {:induction false} TwoFly(buf: seq<Segment>, c: TxContext)
    requires |buf| == 2 && !buf[0].acked && !buf[1].acked && buf[0].xmit == 0 == buf[1].xmit && c.clock == [] && c.cfg.deadLink > 1
    ensures var t, g, h := Transmit(buf, 2, c), Flies(buf[0], c), Flies(buf[1], c);
            && t.buf == [g, h] && t.items == [Put(PushWire(g, c.base, c)), Put(PushWire(h, c.base + 1, c))] && !t.dead
  {
    hide TxOne, Flies, PushWire;
    var t0, t1 := Transmit(buf, 0, c), Transmit(buf, 1, c);
    FirstFlies(t0, buf[0], 0, c);
    assert t1 == TxOne(t0, buf[0], 0, c);
    FirstFlies(t1, buf[1], 1, c);
  }

  lemma FlushWithoutCwnd(k: State)
    requires k.cfg.nocwnd && k.probe == Probe(false, false, 0, 0) && k.acks == [] && k.cong.rmtWnd != 0
    ensures var f, s, t := Flush(k, true, []), Admit(k.snd, EffectiveWindow(k)), FlushTx(k, true, []);
            f.k == k.(snd := s.(buf := t.buf), dead := k.dead || t.dead) && f.packets == Packets(k.cfg.mtu, t.items)
  {
    hide Packets, Transmit, Admit, FlushTx;
    assert AckItems(k) == [] && ProbeItems(k, NextProbe(k, 0)) == [];
    assert [] + FlushTx(k, true, []).items == FlushTx(k, true, []).items;
  }

  // ----------------------------------------- an early resend without fast resend

  /** Two segments of one byte, both sent once at time 0. */
  function Flown(nocwnd: bool): State {
    var k := Fresh(0);
    k.(cfg := k.cfg.(nocwnd := nocwnd),
       snd := Sender(0, 2, [FirstSent(0, [1]), FirstSent(1, [2])], [], 2))
  }

  function FirstSent(sn: u32, data: seq<byte>): Segment { Segment(0, 32, 0, sn, 0, RTO_DEF, 1, RTO_DEF, 0, false, data) }

  function Ready(queue: seq<Segment>): State {
    var k := Fresh(0);
    k.(cfg := k.cfg.(nocwnd := true), snd := k.snd.(queue := queue))
  }

  lemma SendsOne(queue: seq<Segment>, b: byte)
    ensures Send(Ready(queue), [b]) == SendResult(Ready(queue + [NewSegment(0, [b])]), 0)
  {
    var data: seq<byte> := [b];
    assert data[0..] == data && data[..1] == data;
    assert Fragments(data, Fresh(0).cfg.mss, 1, false) == [NewSegment(0, data)];
  }

  lemma FliesTwo()
    ensures Flush(Ready([NewSegment(0, [1]), NewSegment(0, [2])]), true, []).k == Flown(true)
  {
    hide Flush, Transmit;
    var q := [NewSegment(0, [1]), NewSegment(0, [2])];
    var k := Ready(q);
    FlushWithoutCwnd(k);
    var buf := Admit(k.snd, EffectiveWindow(k)).buf;
    assert buf == [q[0].(sn := 0), q[1].(sn := 1)] && q[2..] == [];
    TwoFly(buf, FlushContext(k, []));
  }

  const SECOND: Tagged := Tagged(Wire(0, CMD_ACK, 0, 32, 0, 1, 0, []), 1, 0)

  /** The state after the acknowledgement of the second segment, before its flush. */
  function Overtook(): State {
    var k := Flown(false);
    k.(snd := k.snd.(buf := [k.snd.buf[0].(fastack := 1), MarkAcked(k.snd.buf[1])]), rtt := UpdateAck(k, 0).rtt)
  }

  lemma AckOvertakes()
    ensures BeforeFlush(Flown(false), [SECOND], true, 0) == Overtook()
    ensures Absorb(Flown(false), [SECOND], true).flush
  {
    var k := Flown(false);
    OneAbsorbed(k, SECOND);
    assert Cumulative(k.snd, 0) == k.snd;
    var s := ParseAck(k.snd, 1);
    assert s.buf == [k.snd.buf[0], MarkAcked(k.snd.buf[1])];
    assert ParseFastack(s, 1, 0).buf == [k.snd.buf[0].(fastack := 1), MarkAcked(k.snd.buf[1])];
    assert Overtaken(s.buf[0], 0) && FastackDue(s, 1, 0, 0);
  }

  lemma OvertakenResent()
    ensures Flush(Overtook(), true, []).k.cong == Congestion(1, 2, MTU_DEF - OVERHEAD, 32)
  {
    hide Packets, UpdateAck, Transmit, FlushItems, NextProbe;
    var k := Overtook();
    var s := Admit(k.snd, EffectiveWindow(k));
    assert s.buf == k.snd.buf && s.nxt == 2 && s.una == 0;
    CountsOne(s.buf, FlushContext(k, []));
  }

  lemma {:induction false} CountsOne(buf: seq<Segment>, c: TxContext)
    requires |buf| == 2 && !buf[0].acked && buf[1].acked && SendKind(buf[0], 0, c) == Early && c.clock == []
    ensures Transmit(buf, 2, c).change == 1 && Transmit(buf, 2, c).lost == 0
  {
    hide Stamped, Scheduled, SendKind, PushWire;
    assert Transmit(buf, 0, c).change == 0 && Transmit(buf, 0, c).lost == 0 && Transmit(buf, 0, c).current == 0;
    assert Transmit(buf, 1, c) == TxOne(Transmit(buf, 0, c), buf[0], 0, c);
    assert Transmit(buf, 1, c).change == 1 && Transmit(buf, 1, c).lost == 0;
  }

  ghost function EarlyOps(): seq<Op> {
    [OpNoDelay(-1, -1, -1, 1), OpSend([1]), OpSend([2]), OpFlush(true, []), OpNoDelay(-1, -1, -1, 0), InputOf(SECOND)]
  }

  ghost function EarlyStates(): seq<State> {
    [Fresh(0), Ready([]), Ready([NewSegment(0, [1])]), Ready([NewSegment(0, [1]), NewSegment(0, [2])]), Flown(true), Flown(false),
     Flush(Overtook(), true, []).k]
  }

  lemma EarlyStep(i: nat)
    requires i < 6
    ensures EarlyStates()[i + 1] == Step(EarlyStates()[i], EarlyOps()[i])
  {
    hide Send, Flush, InputBytes, Overtook;
    match i
    case 0 =>
    case 1 => SendsOne([], 1);
    case 2 => SendsOne([NewSegment(0, [1])], 2);
    case 3 => FliesTwo();
    case 4 =>
    case 5 => LastStep();
  }

  /** With fast resend off, an early resend leaves cwnd one below ssthresh. */
  lemma EarlyResendExample() returns (ks: seq<State>)
    ensures IsRun(ks, EarlyOps()) && ks[0] == Fresh(0)
    ensures ks[5].cfg.fastresend == 0 && !ks[5].cfg.nocwnd
    ensures ks[6].cong.cwnd == ks[6].cong.ssthresh - 1 == 1
  {
    hide Step, Flush, Overtook, Ready, InputOf;
    ks := EarlyStates();
    forall i | 0 <= i < 6 ensures ks[i + 1] == Step(ks[i], EarlyOps()[i]) { EarlyStep(i); }
    OvertakenResent();
  }

  lemma LastStep()
    ensures Step(Flown(false), InputOf(SECOND)) == Flush(Overtook(), true, []).k
  {
    hide Flush, Absorb, BeforeFlush, EncodeAll;
    OneParsed(Flown(false), SECOND);
    AckOvertakes();
  }

  // ------------------------------------------ a message longer than the window

  const FRONT: Tagged := Tagged(Wire(0, CMD_PUSH, 1, 32, 0, 0, 0, [1]), 0, 0)
  const REAR: Tagged := Tagged(Wire(0, CMD_PUSH, 0, 32, 0, 1, 0, [2]), 1, 0)

  /** The sender: an mss of one byte, no congestion window. */
  function Narrow(queue: seq<Segment>): State {
    var k := SetMtu(Fresh(0), 25);
    k.(cfg := k.cfg.(nocwnd := true), snd := k.snd.(queue := queue))
  }

  const HALVES: seq<Segment> := [NewSegment(1, [1]), NewSegment(0, [2])]

  lemma SendsTwo()
    ensures Send(Narrow([]), [1, 2]) == SendResult(Narrow(HALVES), 0) && Fragmented(Narrow([]), [1, 2]) == 2
  {
    var b: seq<byte> := [1, 2];
    assert b[0..] == b && b[..1] == [1] && b[1..] == [2] && b[1..][..1] == [2];
    assert FragmentCount(2, 1) == 2;
    assert Fragments(b[1..], 1, 1, false) == [NewSegment(0, [2])];
    assert Fragments(b, 1, 2, false) == HALVES;
    assert [] + HALVES == HALVES;
  }

  lemma AdmitsBoth()
    ensures var k := Narrow(HALVES); Admit(k.snd, EffectiveWindow(k)).buf == [HALVES[0].(sn := 0), HALVES[1].(sn := 1)]
  {
    hide Admit;
    var k := Narrow(HALVES);
    assert |HALVES| == 2 && k.snd.queue == HALVES && EffectiveWindow(k) >= 2;
    AdmitsTwo(k.snd, EffectiveWindow(k));
  }

  lemma AdmitsTwo(s: Sender, window: u32)
    requires |s.queue| == 2 && s.buf == [] && s.total == 0 && window >= 2
    ensures Admit(s, window).buf == [s.queue[0].(sn := 0), s.queue[1].(sn := 1)]
  {
    assert Admitted(s, window) == 2 && W(0) == 0 && W(1) == 1;
  }

  /** What the transmit loop reads in this flush. */
  lemma NarrowContext()
    ensures var k := Narrow(HALVES);
            var c := FlushContext(k, []);
            c.clock == [] && c.cfg == k.cfg && c.cfg.deadLink > 1 && c.base == 0 && c.wnd == 32 && c.una == 0 && c.unaId == 0
  {
  }

  lemma WiresAre(c: TxContext)
    requires c.cfg.conv == 0 && c.base == 0 && c.wnd == 32 && c.una == 0 && c.unaId == 0
    ensures PushWire(Flies(HALVES[0].(sn := 0), c), 0, c) == FRONT && PushWire(Flies(HALVES[1].(sn := 1), c), 1, c) == REAR
  {
  }

  lemma FlushesBoth()
    ensures Flush(Narrow(HALVES), true, []).packets == [[FRONT], [REAR]]
  {
    hide Flush, Transmit, Packets, Admit, EffectiveWindow, FlushContext, Flies, PushWire;
    var k := Narrow(HALVES);
    FlushWithoutCwnd(k);
    AdmitsBoth();
    NarrowContext();
    var c := FlushContext(k, []);
    TwoFly([HALVES[0].(sn := 0), HALVES[1].(sn := 1)], c);
    WiresAre(c);
    TwoPackets();
  }

  lemma TwoPackets()
    ensures Packets(25, [Put(FRONT), Put(REAR)]) == [[FRONT], [REAR]]
  {
    var items := [Put(FRONT), Put(REAR)];
    assert items[..1] == [Put(FRONT)] && items[..1][..0] == [];
    assert Size([]) == 0 && Size([FRONT]) == 25 by { assert [FRONT][..0] == []; }
    assert Pack(25, Packing([], []), items[..1][..0]) == Packing([], []);
    assert Pack(25, Packing([], []), items[..1]) == Packing([], [FRONT]);
    assert Pack(25, Packing([], []), items) == Packing([[FRONT]], [REAR]);
  }

  /** The receiver, with a window of one, after either fragment. */
  lemma TakesFront()
    ensures Step(Sized(0, 1).k, InputOf(FRONT)).rcv == Receiver(1, 1, [Received(FRONT.w)], map[], 1)
    ensures Emitted(Sized(0, 1).k, InputOf(FRONT)) == []
    ensures var k := Step(Sized(0, 1).k, InputOf(FRONT)); k.snd == Sized(0, 1).k.snd && k.cfg == Sized(0, 1).k.cfg && |k.acks| == 1
  {
    hide Step, Emitted;
    PushAlone(Sized(0, 1).k, FRONT);
    MoveFirst(Sized(0, 1).k.rcv, Received(FRONT.w));
  }

  lemma TakesRear(k: State)
    requires k.rcv == Receiver(1, 1, [Received(FRONT.w)], map[], 1) && k.snd == Sized(0, 1).k.snd && k.cfg == Sized(0, 1).k.cfg && |k.acks| == 1
    ensures Step(k, InputOf(REAR)).rcv == Receiver(1, 1, [Received(FRONT.w)], map[1 := Received(REAR.w)], 1)
    ensures Emitted(k, InputOf(REAR)) == []
  {
    hide Step, Emitted;
    PushAlone(k, REAR);
  }

  lemma Delivered(k: State, t: Tagged)
    requires t.unaId == 0 && Base(k.snd) == 0 && t.w.cmd == CMD_PUSH && k.rcv.total <= 1 && t.id >= 0
    ensures Delivers(k, InputOf(t), [t])
  {
    hide EncodeAll;
    assert [t][..0] == [];
  }

  ghost function LongOps(): seq<Op> {
    [OpSetMtu(25), OpNoDelay(-1, -1, -1, 1), OpSend([1, 2]), OpFlush(true, []), InputOf(FRONT), InputOf(REAR)]
  }

  const LONG_AT: seq<bool> := [true, true, true, true, false, false]

  lemma LongSender()
    ensures var x := Sized(0, WND_DEF);
            var x2 := NodeStep(NodeStep(x, OpSetMtu(25)), OpNoDelay(-1, -1, -1, 1));
            var x3 := NodeStep(x2, OpSend([1, 2]));
            && x2.k == Narrow([]) && x2.msgs == [] && x3.k == Narrow(HALVES) && x3.ends == [2] && x3.msgs == [[1, 2]]
            && Out(x3.k, OpFlush(true, [])) == {[FRONT], [REAR]}
            && var x4 := NodeStep(x3, OpFlush(true, [])); x4.ends == [2] && x4.msgs == [[1, 2]]
  {
    hide Flush, Send;
    var x := Sized(0, WND_DEF);
    assert x.k == Fresh(0);
    SendsTwo();
    FlushesBoth();
    var x2 := NodeStep(NodeStep(x, OpSetMtu(25)), OpNoDelay(-1, -1, -1, 1));
    assert x2.k == Narrow([]) && x2.log == [];
  }

  ghost function LongSenders(): seq<Node> {
    var x1 := NodeStep(Sized(0, WND_DEF), OpSetMtu(25));
    var x2 := NodeStep(x1, OpNoDelay(-1, -1, -1, 1));
    var x3 := NodeStep(x2, OpSend([1, 2]));
    [Sized(0, WND_DEF), x1, x2, x3, NodeStep(x3, OpFlush(true, []))]
  }

  ghost function LongStates(): seq<System> {
    var xs, y0, net := LongSenders(), Sized(0, 1), {[FRONT], [REAR]};
    var y1 := NodeStep(y0, InputOf(FRONT));
    [System(xs[0], y0, {}, {}), System(xs[1], y0, {}, {}), System(xs[2], y0, {}, {}), System(xs[3], y0, {}, {}),
     System(xs[4], y0, net, {}), System(xs[4], y1, net, {}), System(xs[4], NodeStep(y1, InputOf(REAR)), net, {})]
  }

  lemma LongSends(i: nat)
    requires i < 4
    ensures Next(LongStates()[i], LongStates()[i + 1], true, LongOps()[i])
  {
    hide Step, InputOf, Flush, NodeStep;
    LongSender();
    assert i < 3 ==> Out(LongSenders()[i].k, LongOps()[i]) == {};
  }

  lemma LongReceives()
    ensures Next(LongStates()[4], LongStates()[5], false, LongOps()[4]) && Next(LongStates()[5], LongStates()[6], false, LongOps()[5])
    ensures LongStates()[6].b.k.rcv == Receiver(1, 1, [Received(FRONT.w)], map[1 := Received(REAR.w)], 1)
  {
    hide Step, InputOf, LongSenders, Emitted, FragsOf, Delivers, Received;
    TakesFront();
    var y0 := Sized(0, 1);
    var y1 := NodeStep(y0, InputOf(FRONT));
    assert y1.k == Step(y0.k, InputOf(FRONT)) by { InputNode(y0, FRONT); }
    TakesRear(y1.k);
    assert NodeStep(y1, InputOf(REAR)).k == Step(y1.k, InputOf(REAR)) by { InputNode(y1, REAR); }
    Delivered(y0.k, FRONT);
    Delivered(y1.k, REAR);
    IsInput(FRONT);
    IsInput(REAR);
  }

  lemma InputNode(x: Node, t: Tagged)
    ensures NodeStep(x, InputOf(t)).k == Step(x.k, InputOf(t))
  {
    hide Step;
  }

  lemma IsInput(t: Tagged)
    ensures InputOf(t).OpInput?
  {
  }

  /** A window of one and a message of two fragments: both arrive, both are held, and
      the message cannot be read. */
  lemma LongMessageExample() returns (ss: seq<System>)
    ensures IsWindowRun(0, 1, ss, LONG_AT, LongOps())
    ensures Accepts(ss, LONG_AT, LongOps(), 2) && Fragmented(ss[2].a.k, [1, 2]) == 2
    ensures Held(ss[6].b.k.rcv, 0) && Held(ss[6].b.k.rcv, 1) && PeekSize(ss[6].b.k.rcv.queue) == -1
  {
    hide Next, Send, Sized, NodeStep, LongSenders, Fragmented, LongStates, PeekSize, InputOf, Received;
    ss := LongStates();
    LongIsRun();
    LongReceives();
    LongStart();
    SendsTwo();
    FrontAlone(ss[6].b.k.rcv.queue);
  }

  lemma FrontAlone(q: seq<Segment>)
    requires q == [Received(FRONT.w)]
    ensures PeekSize(q) == -1
  {
  }

  lemma LongIsRun()
    ensures IsSystemRun(LongStates(), LONG_AT, LongOps())
    ensures MessageMode(LongOps()) && forall i :: 0 <= i < 6 && !LONG_AT[i] ==> KeepsRcvWnd(LongOps()[i])
  {
    hide Next, Sized, NodeStep, LongSenders;
    var ss := LongStates();
    forall i | 0 <= i < 6 ensures Next(ss[i], ss[i + 1], LONG_AT[i], LongOps()[i]) {
      if i < 4 { LongSends(i); } else { LongReceives(); }
    }
  }

  lemma LongStart()
    ensures LongStates()[2].a.k == Narrow([]) && LongStates()[0] == System(Sized(0, WND_DEF), Sized(0, 1), {}, {})
  {
    hide Flush, Send, Sized, InputOf;
    LongSender();
  }
}
