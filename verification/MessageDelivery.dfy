/** Message mode: message boundaries survive the trip. */
module MessageDelivery {
  import opened Facts
  import opened Serial
  import opened KcpState
  import opened WireFormat
  import opened KcpWindows
  import opened Delivery
  import opened DeliveryRuns
  import opened DeliveryTheorems

  /** Every fragment the sender ever queued, numbered or not. */
  function All(x: Node): seq<Frag> { x.log + FragsOf(x.k.snd.queue) }

  /** Positions lo..hi-1 hold one message: numbered down to 0, together the message. */
  ghost predicate IsGroup(fs: seq<Frag>, lo: nat, hi: nat, m: seq<byte>) {
    && lo < hi <= |fs| && hi - lo <= 255
    && (forall i :: lo <= i < hi ==> fs[i].frg == hi - 1 - i)
    && Concat(fs[lo..hi]) == m
  }

  function Start(ends: seq<nat>, j: nat): nat
    requires j <= |ends|
  {
    if j == 0 then 0 else ends[j-1]
  }

  /** The queued fragments are the fragments of the accepted messages, in order. */
  ghost predicate Framed(fs: seq<Frag>, msgs: seq<seq<byte>>, ends: seq<nat>) {
    && |ends| == |msgs|
    && Start(ends, |msgs|) == |fs|
    && forall j {:trigger msgs[j]} :: 0 <= j < |msgs| ==> IsGroup(fs, Start(ends, j), ends[j], msgs[j])
  }

  /** Reading stopped at a message boundary and returned the messages so far. */
  ghost predicate ReadSoFar(x: Node, y: Node) {
    |y.got| <= |x.msgs| && |y.got| <= |x.ends|
    && y.got == x.msgs[..|y.got|] && Consumed(y.k.rcv) == Start(x.ends, |y.got|)
  }

  ghost predicate Messages(x: Node, y: Node) {
    !x.k.cfg.stream && Framed(All(x), x.msgs, x.ends) && ReadSoFar(x, y)
  }

  // ------------------------------------------------------------------- Send

  lemma {:induction false} FragmentNumber(buffer: seq<byte>, mss: u32, count: nat, i: nat)
    requires i < count <= 255
    ensures Fragments(buffer, mss, count, false)[i].frg == count - 1 - i
  {
    if i > 0 { FragmentNumber(buffer[Min(|buffer|, mss)..], mss, count - 1, i - 1); }
  }

  lemma PositiveFragmentCount(len: nat, mss: pos32)
    ensures FragmentCount(len, mss) >= 1
  {
    if len > mss { QuotientPositive(len + mss - 1, mss); }
  }

  lemma QuotientPositive(x: int, d: int)
    requires x >= d > 0
    ensures x / d >= 1
  {
    var q := x / d;
    assert x == q * d + x % d;
    if q <= 0 { MulNonNegative(-q, d); }
  }

  /** In message mode an accepted buffer becomes one message's worth of fragments. */
  lemma SendIsMessage(k: State, buffer: seq<byte>) returns (q: seq<Segment>)
    requires !k.cfg.stream && Send(k, buffer).code == 0
    ensures Send(k, buffer).k == k.(snd := k.snd.(queue := k.snd.queue + q)) && IsGroup(FragsOf(q), 0, |q|, buffer)
    ensures |q| == FragmentCount(|buffer|, k.cfg.mss)
  {
    var count := FragmentCount(|buffer|, k.cfg.mss);
    q := Fragments(buffer, k.cfg.mss, count, false);
    assert buffer[0..] == buffer;
    forall i | 0 <= i < count ensures q[i].frg == count - 1 - i { FragmentNumber(buffer, k.cfg.mss, count, i); }
    PositiveFragmentCount(|buffer|, k.cfg.mss);
    EnoughFragments(|buffer|, k.cfg.mss);
    FragmentsJoin(buffer, k.cfg.mss, count, false);
    BytesIsConcat(q);
    assert FragsOf(q)[0..|q|] == FragsOf(q);
    assert Send(k, buffer).k == k.(snd := k.snd.(queue := k.snd.queue + q));
  }

  lemma RejectedSend(k: State, buffer: seq<byte>)
    requires !k.cfg.stream && Send(k, buffer).code != 0
    ensures Send(k, buffer).k == k
  {
  }

  lemma GroupInPrefix(fs: seq<Frag>, lo: nat, hi: nat, m: seq<byte>, g: seq<Frag>)
    requires IsGroup(fs, lo, hi, m)
    ensures IsGroup(fs + g, lo, hi, m)
  {
    assert (fs + g)[lo..hi] == fs[lo..hi];
  }

  lemma GroupAppended(fs: seq<Frag>, g: seq<Frag>, m: seq<byte>)
    requires IsGroup(g, 0, |g|, m)
    ensures IsGroup(fs + g, |fs|, |fs| + |g|, m)
  {
    assert (fs + g)[|fs|..|fs| + |g|] == g == g[0..|g|];
    forall i | |fs| <= i < |fs| + |g| ensures (fs + g)[i].frg == |fs| + |g| - 1 - i {
      assert (fs + g)[i] == g[i - |fs|];
    }
  }

  lemma FramedAppend(fs: seq<Frag>, msgs: seq<seq<byte>>, ends: seq<nat>, g: seq<Frag>, m: seq<byte>)
    requires Framed(fs, msgs, ends) && IsGroup(g, 0, |g|, m)
    ensures Framed(fs + g, msgs + [m], ends + [|fs| + |g|])
  {
    var msgs', ends' := msgs + [m], ends + [|fs| + |g|];
    GroupAppended(fs, g, m);
    forall j | 0 <= j < |msgs'| ensures IsGroup(fs + g, Start(ends', j), ends'[j], msgs'[j]) {
      if j < |msgs| { GroupInPrefix(fs, Start(ends, j), ends[j], msgs[j], g); }
    }
  }

  lemma SendNodeShape(x: Node, buffer: seq<byte>)
    ensures var k', x' := Send(x.k, buffer).k, NodeStep(x, OpSend(buffer));
            && x'.k == k' && x'.log == x.log && x'.got == x.got
            && x'.msgs == (if Send(x.k, buffer).code == 0 then x.msgs + [buffer] else x.msgs)
            && x'.ends == (if Send(x.k, buffer).code == 0 then x.ends + [|x.log| + |k'.snd.queue|] else x.ends)
  {
    SendOnlyQueues(x.k, buffer);
    assert x.log + [] == x.log;
  }

  lemma SameMessages(x: Node, x': Node, y: Node)
    requires Messages(x, y) && x'.k == x.k && x'.log == x.log && x'.msgs == x.msgs && x'.ends == x.ends
    ensures Messages(x', y)
  {
    hide Framed;
  }

  lemma SendKeepsMessages(x: Node, y: Node, buffer: seq<byte>)
    requires Messages(x, y)
    ensures Messages(NodeStep(x, OpSend(buffer)), y)
  {
    hide Send, NodeStep, Step, All, Framed, IsGroup, FragsOf, FragmentCount;
    SendNodeShape(x, buffer);
    if Send(x.k, buffer).code == 0 {
      var q := SendIsMessage(x.k, buffer);
      AcceptKeepsMessages(x, NodeStep(x, OpSend(buffer)), y, q, buffer);
    } else {
      RejectedSend(x.k, buffer);
      SameMessages(x, NodeStep(x, OpSend(buffer)), y);
    }
  }

  lemma AcceptKeepsMessages(x: Node, x': Node, y: Node, q: seq<Segment>, buffer: seq<byte>)
    requires Messages(x, y) && IsGroup(FragsOf(q), 0, |q|, buffer)
    requires x'.k.cfg == x.k.cfg && x'.k.snd.queue == x.k.snd.queue + q && x'.log == x.log
    requires x'.msgs == x.msgs + [buffer] && x'.ends == x.ends + [|x.log| + |x'.k.snd.queue|]
    ensures Messages(x', y)
  {
    assert All(x') == All(x) + FragsOf(q);
    FramedAppend(All(x), x.msgs, x.ends, FragsOf(q), buffer);
    assert x'.msgs[..|y.got|] == x.msgs[..|y.got|];
  }

  // ------------------------------------------------- other steps of the sender

  lemma FlushKeepsAll(k: State, full: bool, clock: seq<u32>)
    ensures var k', n := Flush(k, full, clock).k, Admitted(k.snd, EffectiveWindow(k));
            k'.snd.total == k.snd.total + n && k'.snd.queue == k.snd.queue[n..] && k'.cfg == k.cfg
  {
  }

  lemma LoggingKeepsAll(log: seq<Frag>, q: seq<Segment>, n: nat)
    requires n <= |q|
    ensures Logged(log, q, n) + FragsOf(q[n..]) == log + FragsOf(q)
  {
  }

  lemma FlushedAll(x: Node, full: bool, clock: seq<u32>)
    ensures All(FlushNode(x, full, clock)) == All(x)
  {
    FlushKeepsAll(x.k, full, clock);
    FlushNodeShape(x, full, clock);
    LoggingKeepsAll(x.log, x.k.snd.queue, Admitted(x.k.snd, EffectiveWindow(x.k)));
  }

  /** Only Send changes what is queued for good. */
  lemma StepKeepsAll(x: Node, op: Op, net: set<Packet>)
    requires Good(x.k) && NetOk(x.k.cfg.conv, net) && Possible(x.k, op, net) && !op.OpSend?
    ensures All(NodeStep(x, op)) == All(x)
    ensures NodeStep(x, op).msgs == x.msgs && NodeStep(x, op).ends == x.ends
  {
    if op.OpFlush? {
      FlushedAll(x, op.full, op.clock);
    } else if op.OpInput? {
      var p :| p in net && Delivers(x.k, op, p);
      AbsorbKeepsQueue(x.k, p, op.regular);
      var x1, choice := InputSplits(x, op, p);
      if !choice.NoFlush? { FlushedAll(x1, choice.Full?, op.clock); }
    } else {
      OtherKeepsQueue(x.k, op);
      assert NodeStep(x, op).log == x.log;
    }
  }

  lemma OtherKeepsQueue(k: State, op: Op)
    requires !op.OpSend? && !op.OpInput? && !op.OpFlush?
    ensures Step(k, op).snd.queue == k.snd.queue && Step(k, op).snd.total == k.snd.total
  {
  }

  lemma StepKeepsStream(k: State, op: Op)
    requires op.OpStream? ==> op.on == k.cfg.stream
    ensures Step(k, op).cfg.stream == k.cfg.stream
  {
    hide Input, MoveAvailable, Enqueue, FlushTx, Penalize;
    if op.OpInput? {
      var p := Parse(k.cfg.conv, op.data);
      InputKeepsConfig(k, TagAll(p.segs, op.ids), p.code, op.regular, op.ackNoDelay, op.clock);
    }
  }

  lemma SenderKeepsMessages(x: Node, y: Node, op: Op, net: set<Packet>)
    requires Good(x.k) && NetOk(x.k.cfg.conv, net) && Possible(x.k, op, net)
    requires Messages(x, y) && (op.OpStream? ==> !op.on)
    ensures Messages(NodeStep(x, op), y)
  {
    StepKeepsStream(x.k, op);
    if op.OpSend? { SendKeepsMessages(x, y, op.buffer); } else { StepKeepsAll(x, op, net); }
  }

  // ------------------------------------------------------- steps of the reader

  /** When the queue starts with a message of the sender, Recv takes exactly the
      segments of that message. */
  lemma {:induction false} WholeMessage(q: seq<Segment>, fs: seq<Frag>, lo: nat, hi: nat, m: seq<byte>)
    requires IsGroup(fs, lo, hi, m) && q != [] && PeekSize(q) >= 0
    requires forall i :: 0 <= i < |q| && lo + i < |fs| ==> FragOf(q[i]) == fs[lo + i]
    ensures hi - lo <= |q| && MessageEnd(q) == hi - lo && Bytes(q[..hi - lo]) == m
  {
    var n := hi - lo;
    assert FragOf(q[0]) == fs[lo + 0];
    assert n <= |q|;
    assert FragOf(q[n - 1]) == fs[lo + (n - 1)];
    forall i | 0 <= i < n - 1 ensures q[i].frg != 0 { assert FragOf(q[i]) == fs[lo + i]; }
    BytesIsConcat(q[..n]);
    assert FragsOf(q[..n]) == fs[lo..hi];
  }

  /** The front of the receive queue is the next accepted message. */
  lemma {:induction false} NextMessage(x: Node, y: Node)
    requires RcvOk(y.k.rcv, x.log) && Messages(x, y) && PeekSize(y.k.rcv.queue) >= 0
    ensures var q, n := y.k.rcv.queue, MessageEnd(y.k.rcv.queue);
            && |y.got| < |x.msgs| && Bytes(q[..n]) == x.msgs[|y.got|]
            && Consumed(y.k.rcv) + n == x.ends[|y.got|]
  {
    var q, c, j := y.k.rcv.queue, Consumed(y.k.rcv), |y.got|;
    assert q != [] && c < |x.log|;
    assert IsGroup(All(x), Start(x.ends, j), x.ends[j], x.msgs[j]);
    forall i | 0 <= i < |q| && c + i < |All(x)| ensures FragOf(q[i]) == All(x)[c + i] {
      assert FragOf(q[i]) == x.log[c + i];
    }
    WholeMessage(q, All(x), c, x.ends[j], x.msgs[j]);
  }

  lemma RecvKeepsMessages(x: Node, y: Node, xy: set<Packet>, yx: set<Packet>, room: nat)
    requires Direction(x, y, xy, yx) && Messages(x, y)
    ensures Messages(x, NodeStep(y, OpRecv(room)))
  {
    RecvNodeShape(y, room);
    if Recv(y.k, room).n >= 0 {
      RecvShape(y.k, room);
      ReadKeepsMessages(x, y, NodeStep(y, OpRecv(room)));
    }
  }

  lemma ReadKeepsMessages(x: Node, y: Node, y': Node)
    requires RcvOk(y.k.rcv, x.log) && Messages(x, y) && PeekSize(y.k.rcv.queue) >= 0
    requires var q, n := y.k.rcv.queue, MessageEnd(y.k.rcv.queue);
             && y'.k.rcv == MoveAvailable(y.k.rcv.(queue := q[n..]))
             && y'.got == y.got + [Bytes(q[..n])]
    ensures Messages(x, y')
  {
    hide RcvOk, All, MoveAvailable, MessageEnd, PeekSize, Bytes, Concat, IsGroup;
    NextMessage(x, y);
    ReadConsumes(y.k.rcv, x.log, MessageEnd(y.k.rcv.queue));
    assert x.msgs[..|y.got| + 1] == x.msgs[..|y.got|] + [x.msgs[|y.got|]];
  }

  lemma ReadConsumes(r: Receiver, log: seq<Frag>, n: nat)
    requires RcvOk(r, log) && n <= |r.queue|
    ensures Consumed(MoveAvailable(r.(queue := r.queue[n..]))) == Consumed(r) + n
  {
    DropReads(r, log, n);
    MoveAvailableOk(r.(queue := r.queue[n..]), log);
  }

  lemma ReaderKeepsMessages(x: Node, y: Node, xy: set<Packet>, yx: set<Packet>, op: Op)
    requires Good(y.k) && NetOk(y.k.cfg.conv, xy) && Possible(y.k, op, xy)
    requires Direction(x, y, xy, yx) && Messages(x, y)
    ensures Messages(x, NodeStep(y, op))
  {
    if op.OpRecv? { RecvKeepsMessages(x, y, xy, yx, op.room); }
    else if op.OpInput? { InputKeepsConsumed(x, y, xy, yx, op); }
    else if !op.OpFlush? { QuietStep(y.k, op, x.log); }
  }

  lemma InputKeepsConsumed(x: Node, y: Node, xy: set<Packet>, yx: set<Packet>, op: Op)
    requires Good(y.k) && NetOk(y.k.cfg.conv, xy) && op.OpInput? && Possible(y.k, op, xy)
    requires Direction(x, y, xy, yx)
    ensures Consumed(NodeStep(y, op).k.rcv) == Consumed(y.k.rcv) && NodeStep(y, op).got == y.got
  {
    var p :| p in xy && Delivers(y.k, op, p);
    assert p[..|p|] == p;
    AbsorbReceiverOk(y.k, p, |p|, op.regular, x.log);
    var y1, choice := InputSplits(y, op, p);
    if !choice.NoFlush? { FlushNodeKeepsReceiver(y1, choice.Full?, op.clock); }
  }

  lemma FlushNodeKeepsReceiver(n: Node, full: bool, clock: seq<u32>)
    ensures var n' := FlushNode(n, full, clock); n'.k.rcv == n.k.rcv && n'.got == n.got
  {
  }

  // --------------------------------------------------------------------- runs

  /** No operation turns stream mode on. */
  ghost predicate MessageMode(ops: seq<Op>) { forall i :: 0 <= i < |ops| && ops[i].OpStream? ==> !ops[i].on }

  ghost predicate BothMessages(s: System) { Messages(s.a, s.b) && Messages(s.b, s.a) }

  lemma MessageStep(conv: u32, s: System, s': System, atA: bool, op: Op)
    requires SystemOk(conv, s) && Next(s, s', atA, op) && BothMessages(s) && (op.OpStream? ==> !op.on)
    ensures BothMessages(s')
  {
    if atA {
      SenderKeepsMessages(s.a, s.b, op, s.ba);
      ReaderKeepsMessages(s.b, s.a, s.ba, s.ab, op);
    } else {
      SenderKeepsMessages(s.b, s.a, op, s.ab);
      ReaderKeepsMessages(s.a, s.b, s.ab, s.ba, op);
    }
  }

  lemma NewMessages(conv: u32)
    ensures BothMessages(NewSystem(conv))
  {
    assert All(NewNode(conv)) == [];
  }

  lemma {:induction false} RunsKeepMessages(conv: u32, ss: seq<System>, at: seq<bool>, ops: seq<Op>, n: nat)
    requires IsSystemRun(ss, at, ops) && SystemOk(conv, ss[0]) && BothMessages(ss[0]) && n < |ss| && MessageMode(ops)
    ensures BothMessages(ss[n])
  {
    if n > 0 {
      RunsKeepMessages(conv, ss, at, ops, n - 1);
      RunsStayOk(conv, ss, at, ops, n - 1);
      MessageStep(conv, ss[n-1], ss[n], at[n-1], ops[n-1]);
    }
  }

  /** End-to-end delivery of messages: in message mode the messages returned by
      Recv are a prefix of the messages the peer's Send accepted. */
  lemma MessagesDelivered(conv: u32, ss: seq<System>, at: seq<bool>, ops: seq<Op>, n: nat)
    requires IsSystemRun(ss, at, ops) && ss[0] == NewSystem(conv) && n < |ss| && MessageMode(ops)
    ensures ss[n].b.got <= ss[n].a.msgs
    ensures ss[n].a.got <= ss[n].b.msgs
  {
    NewSystemOk(conv);
    NewMessages(conv);
    RunsKeepMessages(conv, ss, at, ops, n);
  }
}
