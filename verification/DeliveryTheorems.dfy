/** The end-to-end results: delivery in order, true acknowledgements, flow control. */
module DeliveryTheorems {
  import opened Serial
  import opened KcpState
  import opened WireFormat
  import opened KcpWindows
  import opened Delivery
  import opened DeliveryRuns

  // ---------------------------------------------------- emitted packets parse

  lemma OutSendable(x: Node, y: Node, xy: set<Packet>, yx: set<Packet>, full: bool, clock: seq<u32>)
    requires Direction(x, y, xy, yx)
    ensures NetOk(x.k.cfg.conv, FlushOut(x.k, full, clock))
  {
    FlushedSender(x, y, xy, yx, full, clock);
    forall p: Packet | p in FlushOut(x.k, full, clock) ensures AllSendable(x.k.cfg.conv, p) {
      assert PushPacket(p, FlushNode(x, full, clock).log);
      forall i | 0 <= i < |p| ensures Sendable(x.k.cfg.conv, p[i].w) { FlushEmits(x.k, full, clock, p, i); }
    }
  }

  lemma StepSendable(x: Node, y: Node, xy: set<Packet>, yx: set<Packet>, op: Op)
    requires Good(x.k) && Direction(x, y, xy, yx) && NetOk(x.k.cfg.conv, yx) && Possible(x.k, op, yx)
    ensures NetOk(x.k.cfg.conv, Out(x.k, op))
  {
    hide NodeStep, FlushNode, Flush, InputBytes;
    if op.OpFlush? {
      OutSendable(x, y, xy, yx, op.full, op.clock);
    } else if op.OpInput? {
      var p :| p in yx && Delivers(x.k, op, p);
      var x1, choice := InputSplits(x, op, p);
      assert p[..|p|] == p;
      AbsorbSenderOk(x.k, p, |p|, op.regular, x.log, y.k.rcv);
      assert Direction(x1, y, xy, yx);
      if !choice.NoFlush? { OutSendable(x1, y, xy, yx, choice.Full?, op.clock); }
    }
  }

  lemma StepKeepsConv(k: State, op: Op)
    ensures Step(k, op).cfg.conv == k.cfg.conv
  {
    hide Input, MoveAvailable, Enqueue, FlushTx, Penalize;
    if op.OpInput? {
      var p := Parse(k.cfg.conv, op.data);
      InputKeepsConfig(k, TagAll(p.segs, op.ids), p.code, op.regular, op.ackNoDelay, op.clock);
    }
  }

  // ------------------------------------------------------------------- steps

  lemma StepAt(conv: u32, x: Node, y: Node, xy: set<Packet>, yx: set<Packet>, op: Op)
    requires SystemOk(conv, System(x, y, xy, yx)) && Possible(x.k, op, yx)
    ensures SystemOk(conv, System(NodeStep(x, op), y, xy + Out(x.k, op), yx))
  {
    hide Out, Direction, Good, Step;
    SenderStep(x, y, xy, yx, op);
    ReceiverStep(y, x, yx, xy, op);
    StepSendable(x, y, xy, yx, op);
    StepKeeps(x.k, op);
    StepKeepsConv(x.k, op);
  }

  function Swap(s: System): System { System(s.b, s.a, s.ba, s.ab) }

  lemma SystemStep(conv: u32, s: System, s': System, atA: bool, op: Op)
    requires SystemOk(conv, s) && Next(s, s', atA, op)
    ensures SystemOk(conv, s')
  {
    if atA {
      StepAt(conv, s.a, s.b, s.ab, s.ba, op);
    } else {
      StepAt(conv, s.b, s.a, s.ba, s.ab, op);
      assert SystemOk(conv, Swap(s'));
    }
  }

  // --------------------------------------------------------------------- runs

  /** Any interleaving of operations at the two endpoints, each delivering only
      packets the other one emitted. */
  ghost predicate IsSystemRun(ss: seq<System>, at: seq<bool>, ops: seq<Op>) {
    && |ss| == |ops| + 1 == |at| + 1
    && forall i :: 0 <= i < |ops| ==> Next(ss[i], ss[i+1], at[i], ops[i])
  }

  function NewSystem(conv: u32): System { System(NewNode(conv), NewNode(conv), {}, {}) }

  lemma NewSystemOk(conv: u32)
    ensures SystemOk(conv, NewSystem(conv))
  {
    hide Direction, Good;
    EmptyDirection(NewNode(conv), NewNode(conv));
    NewGood(conv);
  }

  /** Nothing has been sent or received yet. */
  ghost predicate Empty(x: Node) {
    && x.k.snd == Sender(0, 0, [], [], 0) && x.k.rcv == Receiver(0, x.k.rcv.wnd, [], map[], 0) && x.k.acks == []
    && x.log == [] && x.sent == [] && x.got == []
  }

  lemma EmptyDirection(x: Node, y: Node)
    requires Empty(x) && Empty(y)
    ensures Direction(x, y, {}, {})
  {
    hide SndOk, RcvOk;
    EmptyStores(x, y);
    assert x.log[..0] == [];
  }

  lemma EmptyStores(x: Node, y: Node)
    requires Empty(x) && Empty(y)
    ensures SndOk(x.k.snd, x.log, y.k.rcv) && RcvOk(y.k.rcv, x.log)
  {
  }

  lemma NewGood(conv: u32)
    ensures Good(NewNode(conv).k)
  {
  }

  lemma {:induction false} RunsStayOk(conv: u32, ss: seq<System>, at: seq<bool>, ops: seq<Op>, n: nat)
    requires IsSystemRun(ss, at, ops) && SystemOk(conv, ss[0]) && n < |ss|
    ensures SystemOk(conv, ss[n])
  {
    hide SystemOk, Next;
    if n > 0 {
      RunsStayOk(conv, ss, at, ops, n - 1);
      SystemStep(conv, ss[n-1], ss[n], at[n-1], ops[n-1]);
    }
  }

  /** End-to-end delivery of bytes, in both directions and in any mix of stream
      and message mode: the bytes returned by Recv are a prefix of the bytes
      taken by the peer's Send. */
  lemma ByteStreamDelivery(conv: u32, ss: seq<System>, at: seq<bool>, ops: seq<Op>, n: nat)
    requires IsSystemRun(ss, at, ops) && ss[0] == NewSystem(conv) && n < |ss|
    ensures Join(ss[n].b.got) <= ss[n].a.sent
    ensures Join(ss[n].a.got) <= ss[n].b.sent
  {
    NewSystemOk(conv);
    RunsStayOk(conv, ss, at, ops, n);
    ReceivedIsPrefix(ss[n].a, ss[n].b, ss[n].ab, ss[n].ba);
    ReceivedIsPrefix(ss[n].b, ss[n].a, ss[n].ba, ss[n].ab);
  }

  lemma ReceivedIsPrefix(x: Node, y: Node, xy: set<Packet>, yx: set<Packet>)
    requires Direction(x, y, xy, yx)
    ensures Join(y.got) <= x.sent
  {
    var c := Consumed(y.k.rcv);
    assert x.log == x.log[..c] + x.log[c..];
    ConcatAppend(x.log[..c], x.log[c..]);
  }

  /** Acknowledgement soundness: whatever left the send buffer, or had its data
      recycled in it, is held by the peer. */
  lemma AcknowledgedIsHeld(conv: u32, ss: seq<System>, at: seq<bool>, ops: seq<Op>, n: nat, l: nat)
    requires IsSystemRun(ss, at, ops) && ss[0] == NewSystem(conv) && n < |ss|
    requires var s := ss[n].a.k.snd; l < Base(s) || (l < s.total && s.buf[l - Base(s)].acked)
    ensures Held(ss[n].b.k.rcv, l)
  {
    NewSystemOk(conv);
    RunsStayOk(conv, ss, at, ops, n);
  }
}
