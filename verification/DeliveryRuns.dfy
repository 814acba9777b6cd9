/** Whole runs of two endpoints: what is received is a prefix of what was sent. */
module DeliveryRuns {
  import opened Facts
  import opened Serial
  import opened KcpState
  import opened WireFormat
  import opened KcpWindows
  import opened Delivery

  /** An endpoint and its history: the content behind every number it assigned,
      the bytes its Send took, the messages it accepted, how many segments there
      were after each of them, and what its Recv returned. */
  datatype Node = Node(k: State, log: seq<Frag>, sent: seq<byte>, msgs: seq<seq<byte>>, ends: seq<nat>,
                       got: seq<seq<byte>>)

  /** Two endpoints and every packet emitted so far, by direction. */
  datatype System = System(a: Node, b: Node, ab: set<Packet>, ba: set<Packet>)

  // -------------------------------------------------------------------- steps

  /** The output callback drops anything shorter than a header. */
  function Out(k: State, op: Op): set<Packet>
  {
    set p | p in Emitted(k, op) && p != []
  }

  /** The segments that got numbers between two states, in queue order. */
  function NewlyNumbered(k: State, k': State): seq<Frag> {
    FragsOf(k.snd.queue[..Max(0, Min(k'.snd.total - k.snd.total, |k.snd.queue|))])
  }

  function TakenBytes(q: seq<Segment>, buffer: seq<byte>, mss: pos32, stream: bool): (n: nat)
    ensures n <= |buffer|
  {
    var code := Enqueue(q, buffer, mss, stream).code;
    if code == 0 then |buffer| else if code == -2 then Extension(q, |buffer|, mss, stream) else 0
  }

  /** How much of the buffer Send takes, whatever it returns. */
  function Taken(k: State, buffer: seq<byte>): (n: nat)
    ensures n <= |buffer|
  {
    TakenBytes(k.snd.queue, buffer, k.cfg.mss, k.cfg.stream)
  }

  /** A flush at an endpoint, and what it puts on the network. */
  function FlushNode(n: Node, full: bool, clock: seq<u32>): Node {
    var k' := Flush(n.k, full, clock).k;
    n.(k := k', log := n.log + NewlyNumbered(n.k, k'))
  }

  function FlushOut(k: State, full: bool, clock: seq<u32>): set<Packet> {
    set p | p in Flush(k, full, clock).packets && p != []
  }

  function NodeStep(n: Node, op: Op): Node {
    var k' := Step(n.k, op);
    var n' := n.(k := k', log := n.log + NewlyNumbered(n.k, k'));
    match op
    case OpSend(buffer) =>
      var n1 := n'.(sent := n.sent + buffer[..Taken(n.k, buffer)]);
      if Send(n.k, buffer).code == 0 then n1.(msgs := n.msgs + [buffer], ends := n.ends + [|n.log| + |k'.snd.queue|])
      else n1
    case OpRecv(room) =>
      var r := Recv(n.k, room);
      n'.(got := if r.n >= 0 then n.got + [r.data] else n.got)
    case _ => n'
  }

  /** The numbers in a segment lag less than 2^31 behind the endpoint's counters. */
  predicate FreshSeg(k: State, t: Tagged) {
    && Base(k.snd) - t.unaId < HALF
    && (t.w.cmd == CMD_PUSH ==> k.rcv.total - t.id < HALF)
    && (t.w.cmd == CMD_ACK ==> Base(k.snd) - t.id < HALF)
  }

  ghost predicate FreshPacket(k: State, p: Packet, regular: bool) {
    forall n :: 0 <= n < |p| ==> FreshSeg(Absorb(k, p[..n], regular).k, p[n])
  }

  /** The operation hands the endpoint the bytes of packet p. */
  ghost predicate Delivers(k: State, op: Op, p: Packet)
    requires op.OpInput?
  {
    && p != [] && op.data == EncodeAll(p)
    && (forall i :: 0 <= i < |p| ==> IdAt(op.ids, i) == (p[i].id, p[i].unaId))
    && FreshPacket(k, p, op.regular)
  }

  ghost predicate Possible(k: State, op: Op, net: set<Packet>) {
    op.OpInput? ==> exists p :: p in net && Delivers(k, op, p)
  }

  ghost predicate Next(s: System, s': System, atA: bool, op: Op)
  {
    if atA then Possible(s.a.k, op, s.ba) && s' == s.(a := NodeStep(s.a, op), ab := s.ab + Out(s.a.k, op))
    else Possible(s.b.k, op, s.ab) && s' == s.(b := NodeStep(s.b, op), ba := s.ba + Out(s.b.k, op))
  }

  function NewNode(conv: u32): Node { Node(Fresh(conv), [], [], [], [], []) }

  // ---------------------------------------------------------------- invariant

  ghost predicate QueueOk(q: seq<Segment>) { forall i :: 0 <= i < |q| ==> !q[i].acked && |q[i].data| < RANGE }
  ghost predicate LogOk(log: seq<Frag>) { forall i :: 0 <= i < |log| ==> |log[i].data| < RANGE }

  function Concat(fs: seq<Frag>): seq<byte> { if fs == [] then [] else Concat(fs[..|fs|-1]) + fs[|fs|-1].data }
  function Join(ms: seq<seq<byte>>): seq<byte> { if ms == [] then [] else Join(ms[..|ms|-1]) + ms[|ms|-1] }

  /** How many numbers the receiver has handed to its reader. */
  function Consumed(r: Receiver): int { r.total - |r.queue| }

  /** Everything about the traffic from x to y. */
  ghost predicate Direction(x: Node, y: Node, xy: set<Packet>, yx: set<Packet>) {
    && SndOk(x.k.snd, x.log, y.k.rcv)
    && RcvOk(y.k.rcv, x.log)
    && QueueOk(x.k.snd.queue) && LogOk(x.log)
    && AcksOk(y.k.acks, y.k.rcv)
    && PushNet(xy, x.log) && AckNet(yx, y.k.rcv)
    && SentOk(x) && GotOk(x.log, y)
  }

  ghost predicate PushNet(net: set<Packet>, log: seq<Frag>) {
    forall p :: p in net ==> PushPacket(p, log)
  }

  ghost predicate PushPacket(p: Packet, log: seq<Frag>) { forall i :: 0 <= i < |p| ==> PushOk(p[i], log) }

  ghost predicate AckNet(net: set<Packet>, r: Receiver) {
    forall p :: p in net ==> AckPacket(p, r)
  }

  ghost predicate AckPacket(p: Packet, r: Receiver) { forall i :: 0 <= i < |p| ==> AckOk(p[i], r) }

  /** Nothing Send took is missing between the log and the queue. */
  ghost predicate SentOk(x: Node) { Concat(x.log) + Bytes(x.k.snd.queue) == x.sent }

  /** What Recv returned so far are the bytes of the numbers consumed. */
  ghost predicate GotOk(log: seq<Frag>, y: Node) {
    0 <= Consumed(y.k.rcv) <= |log| && Concat(log[..Consumed(y.k.rcv)]) == Join(y.got)
  }

  ghost predicate NetOk(conv: u32, net: set<Packet>) {
    forall p :: p in net ==> AllSendable(conv, p)
  }

  ghost predicate SystemOk(conv: u32, s: System) {
    && Good(s.a.k) && Good(s.b.k) && s.a.k.cfg.conv == conv == s.b.k.cfg.conv
    && NetOk(conv, s.ab) && NetOk(conv, s.ba)
    && Direction(s.a, s.b, s.ab, s.ba)
    && Direction(s.b, s.a, s.ba, s.ab)
  }

  // ------------------------------------------------ what a packet does, by side

  lemma AbsorbOneSenderOk(a: Absorbed, t: Tagged, regular: bool, log: seq<Frag>, r: Receiver)
    requires SndOk(a.k.snd, log, r) && RcvOk(r, log) && AckOk(t, r) && FreshSeg(a.k, t)
    ensures SndOk(AbsorbOne(a, t, regular).k.snd, log, r)
    ensures AbsorbOne(a, t, regular).k.snd.queue == a.k.snd.queue
  {
    CumulativeOk(a.k.snd, log, r, t.unaId);
    var s := Cumulative(a.k.snd, t.w.una);
    if t.w.cmd == CMD_ACK {
      ParseAckOk(s, log, r, t.id);
      ParseFastackOk(ParseAck(s, t.w.sn), log, r, t.w.sn, t.w.ts);
    }
  }

  lemma {:induction false} AbsorbSenderOk(k: State, p: Packet, n: nat, regular: bool, log: seq<Frag>, r: Receiver)
    requires n <= |p| && FreshPacket(k, p, regular)
    requires SndOk(k.snd, log, r) && RcvOk(r, log)
    requires AckPacket(p, r)
    ensures SndOk(Absorb(k, p[..n], regular).k.snd, log, r)
    ensures Absorb(k, p[..n], regular).k.snd.queue == k.snd.queue
  {
    if n > 0 {
      AbsorbSenderOk(k, p, n - 1, regular, log, r);
      assert p[..n][..n-1] == p[..n-1];
      AbsorbOneSenderOk(Absorb(k, p[..n-1], regular), p[n-1], regular, log, r);
    }
  }

  lemma AbsorbOneReceiverOk(a: Absorbed, t: Tagged, regular: bool, log: seq<Frag>)
    requires RcvOk(a.k.rcv, log) && |log| <= a.k.rcv.total + WND_MAX && AcksOk(a.k.acks, a.k.rcv)
    requires PushOk(t, log) && FreshSeg(a.k, t)
    ensures var k' := AbsorbOne(a, t, regular).k;
            && RcvOk(k'.rcv, log) && Grows(a.k.rcv, k'.rcv) && AcksOk(k'.acks, k'.rcv)
            && Consumed(k'.rcv) == Consumed(a.k.rcv)
  {
    if t.w.cmd == CMD_PUSH { ParseDataOk(a.k.rcv, log, Received(t.w), t.id); }
  }

  lemma {:induction false} AbsorbReceiverOk(k: State, p: Packet, n: nat, regular: bool, log: seq<Frag>)
    requires n <= |p| && FreshPacket(k, p, regular)
    requires RcvOk(k.rcv, log) && |log| <= k.rcv.total + WND_MAX && AcksOk(k.acks, k.rcv)
    requires PushPacket(p, log)
    ensures var k' := Absorb(k, p[..n], regular).k;
            && RcvOk(k'.rcv, log) && Grows(k.rcv, k'.rcv) && AcksOk(k'.acks, k'.rcv)
            && Consumed(k'.rcv) == Consumed(k.rcv)
  {
    if n > 0 {
      AbsorbReceiverOk(k, p, n - 1, regular, log);
      assert p[..n][..n-1] == p[..n-1];
      AbsorbOneReceiverOk(Absorb(k, p[..n-1], regular), p[n-1], regular, log);
    }
  }

  // --------------------------------------------------- what a step does, by side

  /** A delivered packet comes out of the byte parser as it went in. */
  lemma DeliveredIntact(k: State, op: Op, p: Packet)
    requires op.OpInput? && Delivers(k, op, p) && AllSendable(k.cfg.conv, p)
    ensures InputBytes(k, op.data, op.ids, op.regular, op.ackNoDelay, op.clock)
         == Input(k, p, 0, op.regular, op.ackNoDelay, op.clock)
  {
    PacketRoundTrip(k.cfg.conv, p);
    assert TagAll(Wires(p), op.ids) == p;
  }

  /** Numbers and contents are all that matters to the sending side. */
  lemma SameContentOk(s: Sender, buf: seq<Segment>, log: seq<Frag>, r: Receiver)
    requires SndOk(s, log, r) && |buf| == |s.buf|
    requires forall i :: 0 <= i < |buf| ==>
               && buf[i].sn == s.buf[i].sn && buf[i].frg == s.buf[i].frg
               && buf[i].data == s.buf[i].data && buf[i].acked == s.buf[i].acked
    ensures SndOk(s.(buf := buf), log, r)
  {
    SameNumbersKeep(s, buf);
  }

  lemma FlushSenderOk(k: State, full: bool, clock: seq<u32>, log: seq<Frag>, r: Receiver)
    requires SndOk(k.snd, log, r) && QueueOk(k.snd.queue)
    ensures 0 <= Flush(k, full, clock).k.snd.total - k.snd.total <= |k.snd.queue|
    ensures var k' := Flush(k, full, clock).k;
            && k'.snd.queue == k.snd.queue[k'.snd.total - k.snd.total..]
            && SndOk(k'.snd, Logged(log, k.snd.queue, k'.snd.total - k.snd.total), r)
  {
    var window := EffectiveWindow(k);
    AdmitOk(k.snd, log, r, window);
    FlushTxKeeps(k, full, clock);
    SameContentOk(Admit(k.snd, window), FlushTx(k, full, clock).buf, Logged(log, k.snd.queue, Admitted(k.snd, window)), r);
  }

  lemma FlushPushOk(k: State, full: bool, clock: seq<u32>, log: seq<Frag>, r: Receiver, p: Packet, i: nat)
    requires SndOk(Flush(k, full, clock).k.snd, log, r) && SndInv(k.snd)
    requires p in Flush(k, full, clock).packets && i < |p|
    ensures PushOk(p[i], log)
  {
    FlushEmits(k, full, clock, p, i);
    FlushKeepsSender(k, full, clock);
  }

  lemma FlushAckOk(k: State, full: bool, clock: seq<u32>, p: Packet, i: nat)
    requires RcvInv(k.rcv) && AcksOk(k.acks, k.rcv)
    requires p in Flush(k, full, clock).packets && i < |p|
    ensures AckOk(p[i], k.rcv)
  {
    FlushEmits(k, full, clock, p, i);
  }

  // ------------------------------------------------------------- stream algebra

  lemma {:induction false} ConcatAppend(f: seq<Frag>, g: seq<Frag>)
    ensures Concat(f + g) == Concat(f) + Concat(g)
  {
    if g == [] {
      assert f + g == f;
    } else {
      var h := f + g;
      assert h[..|h|-1] == f + g[..|g|-1];
      ConcatAppend(f, g[..|g|-1]);
    }
  }

  lemma {:induction false} BytesIsConcat(q: seq<Segment>)
    ensures Bytes(q) == Concat(FragsOf(q))
  {
    if q != [] {
      BytesIsConcat(q[..|q|-1]);
      assert FragsOf(q)[..|q|-1] == FragsOf(q[..|q|-1]);
    }
  }

  lemma BytesAppend(p: seq<Segment>, q: seq<Segment>)
    ensures Bytes(p + q) == Bytes(p) + Bytes(q)
  {
    BytesIsConcat(p); BytesIsConcat(q); BytesIsConcat(p + q);
    assert FragsOf(p + q) == FragsOf(p) + FragsOf(q);
    ConcatAppend(FragsOf(p), FragsOf(q));
  }

  /** Giving numbers to queued segments moves bytes, it does not change them. */
  lemma LoggingMovesBytes(log: seq<Frag>, q: seq<Segment>, n: nat)
    requires n <= |q|
    ensures Concat(Logged(log, q, n)) + Bytes(q[n..]) == Concat(log) + Bytes(q)
  {
    ConcatAppend(log, FragsOf(q[..n]));
    BytesIsConcat(q[..n]);
    BytesAppend(q[..n], q[n..]);
    assert q[..n] + q[n..] == q;
  }

  // ----------------------------------------------------------------- Send

  /** `count` pieces of at most `mss` bytes exhaust `len` bytes. */
  ghost predicate Exhausts(len: nat, mss: nat, count: nat) {
    if count == 0 then len == 0 else Exhausts(len - Min(len, mss), mss, count - 1)
  }

  lemma FirstFragment(buffer: seq<byte>, mss: u32, count: nat, stream: bool)
    requires 0 < count <= 255
    ensures var size := Min(|buffer|, mss);
            Fragments(buffer, mss, count, stream) ==
              [NewSegment(if stream then 0 else count - 1, buffer[..size])] + Fragments(buffer[size..], mss, count - 1, stream)
  {
  }

  lemma BytesOfOne(g: Segment)
    ensures Bytes([g]) == g.data
  {
    assert [g][..0] == [] && [g][1..] == [] && [] + g.data == g.data;
  }

  lemma {:induction false} FragmentsJoin(buffer: seq<byte>, mss: u32, count: nat, stream: bool)
    requires count <= 255 && Exhausts(|buffer|, mss, count)
    ensures Bytes(Fragments(buffer, mss, count, stream)) == buffer
  {
    if count > 0 {
      hide Bytes, Fragments;
      FirstFragment(buffer, mss, count, stream);
      var size := Min(|buffer|, mss);
      var g, rest := NewSegment(if stream then 0 else count - 1, buffer[..size]), Fragments(buffer[size..], mss, count - 1, stream);
      FragmentsJoin(buffer[size..], mss, count - 1, stream);
      BytesAppend([g], rest);
      BytesOfOne(g);
      assert buffer == buffer[..size] + buffer[size..];
    } else {
      assert buffer == [];
    }
  }

  lemma {:induction false} FragmentsQueueOk(buffer: seq<byte>, mss: u32, count: nat, stream: bool)
    requires count <= 255
    ensures QueueOk(Fragments(buffer, mss, count, stream))
  {
    if count > 0 {
      FragmentsQueueOk(buffer[Min(|buffer|, mss)..], mss, count - 1, stream);
    }
  }

  lemma {:induction false} MultipleExhausts(len: nat, mss: nat, count: nat)
    requires mss > 0 && len <= count * mss
    ensures Exhausts(len, mss, count)
  {
    if count > 0 {
      assert (count - 1) * mss == count * mss - mss;
      MulNonNegative(count - 1, mss);
      MultipleExhausts(len - Min(len, mss), mss, count - 1);
    }
  }

  lemma EnoughFragments(len: nat, mss: pos32)
    ensures Exhausts(len, mss, FragmentCount(len, mss))
  {
    if len > mss {
      var x := len + mss - 1;
      assert x == x / mss * mss + x % mss;
    }
    MultipleExhausts(len, mss, FragmentCount(len, mss));
  }

  lemma ExtendedBytes(q: seq<Segment>, more: seq<byte>)
    requires q != []
    ensures Bytes(Extended(q, more)) == Bytes(q) + more
  {
    var e := Extended(q, more);
    assert e[..|e|-1] == q[..|q|-1];
  }

  lemma SendExtends(q: seq<Segment>, buffer: seq<byte>, mss: pos32, stream: bool)
    requires QueueOk(q)
    ensures var x := Extension(q, |buffer|, mss, stream);
            var q' := Extended(q, buffer[..x]);
            Bytes(q') == Bytes(q) + buffer[..x] && QueueOk(q')
  {
    var x := Extension(q, |buffer|, mss, stream);
    if x > 0 { ExtendedBytes(q, buffer[..x]); }
  }

  lemma SendFragments(q: seq<Segment>, rest: seq<byte>, mss: pos32, stream: bool)
    requires FragmentCount(|rest|, mss) <= 255 && QueueOk(q)
    ensures var q' := q + Fragments(rest, mss, FragmentCount(|rest|, mss), stream);
            Bytes(q') == Bytes(q) + rest && QueueOk(q')
  {
    var count := FragmentCount(|rest|, mss);
    EnoughFragments(|rest|, mss);
    FragmentsJoin(rest, mss, count, stream);
    FragmentsQueueOk(rest, mss, count, stream);
    BytesAppend(q, Fragments(rest, mss, count, stream));
  }

  /** Send appends exactly the bytes it took to what was queued. */
  lemma SendAppends(q: seq<Segment>, buffer: seq<byte>, mss: pos32, stream: bool)
    requires QueueOk(q)
    ensures var q' := Enqueue(q, buffer, mss, stream).queue;
            Bytes(q') == Bytes(q) + buffer[..TakenBytes(q, buffer, mss, stream)] && QueueOk(q')
  {
    hide Bytes, Fragments, Extension, Extended, FragmentCount, QueueOk;
    if buffer != [] {
      var x := Extension(q, |buffer|, mss, stream);
      var rest := buffer[x..];
      SendExtends(q, buffer, mss, stream);
      assert buffer[..x] + rest == buffer && buffer[..|buffer|] == buffer;
      assert rest == [] ==> buffer[..x] == buffer;
      if Enqueue(q, buffer, mss, stream).code == 0 && !(stream && rest == []) {
        SendFragments(Extended(q, buffer[..x]), rest, mss, stream);
        assert Bytes(q) + buffer[..x] + rest == Bytes(q) + (buffer[..x] + rest);
      }
    } else {
      assert Bytes(q) + buffer[..0] == Bytes(q);
    }
  }

  // ------------------------------------------------ a step of the sending side

  /** A longer log changes nothing about what was received or sent before. */
  lemma LongerLog(y: Node, log: seq<Frag>, more: seq<Frag>, net: set<Packet>)
    requires RcvOk(y.k.rcv, log) && GotOk(log, y) && PushNet(net, log)
    ensures RcvOk(y.k.rcv, log + more) && GotOk(log + more, y) && PushNet(net, log + more)
  {
    assert (log + more)[..Consumed(y.k.rcv)] == log[..Consumed(y.k.rcv)];
  }

  /** The sending side after some prefix of the queue got numbers. */
  lemma SenderMoves(x: Node, x': Node, y: Node, xy: set<Packet>, out: set<Packet>, yx: set<Packet>)
    requires Direction(x, y, xy, yx)
    requires 0 <= x'.k.snd.total - x.k.snd.total <= |x.k.snd.queue|
    requires var n := x'.k.snd.total - x.k.snd.total;
             && x'.k.snd.queue == x.k.snd.queue[n..]
             && x'.log == Logged(x.log, x.k.snd.queue, n)
             && x'.sent == x.sent
    requires SndOk(x'.k.snd, x'.log, y.k.rcv)
    requires PushNet(out, x'.log)
    ensures Direction(x', y, xy + out, yx)
  {
    hide SndOk, RcvOk, AcksOk, AckNet, GotOk, PushPacket;
    var n := x'.k.snd.total - x.k.snd.total;
    LongerLog(y, x.log, FragsOf(x.k.snd.queue[..n]), xy);
    LoggedOk(x, x', n);
  }

  lemma LoggedOk(x: Node, x': Node, n: nat)
    requires QueueOk(x.k.snd.queue) && LogOk(x.log) && SentOk(x) && n <= |x.k.snd.queue|
    requires x'.k.snd.queue == x.k.snd.queue[n..] && x'.log == Logged(x.log, x.k.snd.queue, n) && x'.sent == x.sent
    ensures QueueOk(x'.k.snd.queue) && LogOk(x'.log) && SentOk(x')
  {
    hide Concat, Bytes, FragsOf;
    LoggingMovesBytes(x.log, x.k.snd.queue, n);
  }

  lemma FlushPushNet(k: State, full: bool, clock: seq<u32>, log: seq<Frag>, r: Receiver)
    requires SndInv(k.snd) && SndOk(Flush(k, full, clock).k.snd, log, r)
    ensures PushNet(FlushOut(k, full, clock), log)
  {
    forall p: Packet | p in FlushOut(k, full, clock) ensures PushPacket(p, log) {
      forall i | 0 <= i < |p| ensures PushOk(p[i], log) { FlushPushOk(k, full, clock, log, r, p, i); }
    }
  }

  lemma FlushNodeShape(n: Node, full: bool, clock: seq<u32>)
    requires 0 <= Flush(n.k, full, clock).k.snd.total - n.k.snd.total <= |n.k.snd.queue|
    ensures var k', n' := Flush(n.k, full, clock).k, FlushNode(n, full, clock);
            n' == n.(k := k', log := Logged(n.log, n.k.snd.queue, k'.snd.total - n.k.snd.total))
  {
  }

  lemma FlushedSender(x: Node, y: Node, xy: set<Packet>, yx: set<Packet>, full: bool, clock: seq<u32>)
    requires Direction(x, y, xy, yx)
    ensures Direction(FlushNode(x, full, clock), y, xy + FlushOut(x.k, full, clock), yx)
  {
    hide Flush, FlushNode, FlushOut, SndInv, RcvOk, SentOk, GotOk, AcksOk, AckNet, LogOk, QueueOk;
    var x' := FlushNode(x, full, clock);
    FlushSenderOk(x.k, full, clock, x.log, y.k.rcv);
    FlushNodeShape(x, full, clock);
    FlushPushNet(x.k, full, clock, x'.log, y.k.rcv);
    SenderMoves(x, x', y, xy, FlushOut(x.k, full, clock), yx);
  }

  lemma {:induction false} AbsorbKeepsQueue(k: State, ts: seq<Tagged>, regular: bool)
    ensures Absorb(k, ts, regular).k.snd.queue == k.snd.queue
    ensures Absorb(k, ts, regular).k.snd.total == k.snd.total
  {
    if ts != [] { AbsorbKeepsQueue(k, ts[..|ts|-1], regular); }
  }

  lemma SettleKeeps(a: Absorbed, una: u32, regular: bool, now: u32)
    ensures var k := Settle(a, una, regular, now);
            k.cfg == a.k.cfg && k.snd == a.k.snd && k.rcv == a.k.rcv && k.acks == a.k.acks
  {
  }

  /** What Input does with an intact packet before its final flush. */
  lemma BeforeFlushKeeps(k: State, p: Packet, regular: bool, now: u32)
    ensures var a, k1 := Absorb(k, p, regular).k, BeforeFlush(k, p, regular, now);
            && k1.cfg == k.cfg && k1.snd == a.snd && k1.rcv == a.rcv && k1.acks == a.acks
            && k1.snd.queue == k.snd.queue && k1.snd.total == k.snd.total
  {
    AbsorbKeepsConfig(k, p, regular);
    AbsorbKeepsQueue(k, p, regular);
    SettleKeeps(Absorb(k, p, regular), k.snd.una, regular, now);
  }

  lemma InputThenFlush(k: State, op: Op, p: Packet) returns (k1: State, choice: FlushChoice)
    requires op.OpInput? && Delivers(k, op, p) && AllSendable(k.cfg.conv, p)
    ensures k1 == BeforeFlush(k, p, op.regular, Now(op.clock, 0)) && k1.cfg == k.cfg
    ensures choice.NoFlush? ==> Step(k, op) == k1 && Emitted(k, op) == []
    ensures !choice.NoFlush? ==> Step(k, op) == Flush(k1, choice.Full?, op.clock).k
    ensures !choice.NoFlush? ==> Emitted(k, op) == Flush(k1, choice.Full?, op.clock).packets
  {
    DeliveredIntact(k, op, p);
    BeforeFlushKeeps(k, p, op.regular, Now(op.clock, 0));
    k1 := BeforeFlush(k, p, op.regular, Now(op.clock, 0));
    choice := InputFlush(Absorb(k, p, op.regular).flush, k1, op.ackNoDelay);
  }

  /** A delivered packet acts in two steps: it is absorbed, then there may be a flush. */
  lemma InputSplits(n: Node, op: Op, p: Packet) returns (n1: Node, choice: FlushChoice)
    requires Good(n.k) && op.OpInput? && Delivers(n.k, op, p) && AllSendable(n.k.cfg.conv, p)
    ensures n1 == n.(k := n1.k) && n1.k.cfg == n.k.cfg
    ensures var a := Absorb(n.k, p, op.regular).k; n1.k.snd == a.snd && n1.k.rcv == a.rcv && n1.k.acks == a.acks
    ensures choice.NoFlush? ==> NodeStep(n, op) == n1 && Out(n.k, op) == {}
    ensures !choice.NoFlush? ==> NodeStep(n, op) == FlushNode(n1, choice.Full?, op.clock)
    ensures !choice.NoFlush? ==> Out(n.k, op) == FlushOut(n1.k, choice.Full?, op.clock)
  {
    hide Flush, Absorb, InputBytes, FragsOf, Good;
    var k1;
    k1, choice := InputThenFlush(n.k, op, p);
    BeforeFlushKeeps(n.k, p, op.regular, Now(op.clock, 0));
    n1 := n.(k := k1);
    assert n.log + [] == n.log;
    var k' := Step(n.k, op);
    assert NewlyNumbered(n.k, k') == NewlyNumbered(k1, k');
  }

  lemma InputSenderOk(x: Node, y: Node, xy: set<Packet>, yx: set<Packet>, op: Op, p: Packet)
    requires Good(x.k) && Direction(x, y, xy, yx) && NetOk(x.k.cfg.conv, yx)
    requires op.OpInput? && p in yx && Delivers(x.k, op, p)
    ensures Direction(NodeStep(x, op), y, xy + Out(x.k, op), yx)
  {
    hide NodeStep, Out, Absorb, FlushNode, FlushOut, Good, AllSendable;
    var x1, choice := InputSplits(x, op, p);
    assert p[..|p|] == p;
    AbsorbSenderOk(x.k, p, |p|, op.regular, x.log, y.k.rcv);
    assert Direction(x1, y, xy, yx);
    if choice.NoFlush? {
      assert xy + {} == xy;
    } else {
      FlushedSender(x1, y, xy, yx, choice.Full?, op.clock);
    }
  }

  lemma SendSenderOk(x: Node, y: Node, xy: set<Packet>, yx: set<Packet>, buffer: seq<byte>)
    requires Good(x.k) && Direction(x, y, xy, yx)
    ensures Direction(NodeStep(x, OpSend(buffer)), y, xy, yx)
  {
    SendAppends(x.k.snd.queue, buffer, x.k.cfg.mss, x.k.cfg.stream);
    SendOnlyQueues(x.k, buffer);
    QueueGrows(x, NodeStep(x, OpSend(buffer)), y, xy, yx, buffer[..Taken(x.k, buffer)]);
  }

  lemma QueueGrows(x: Node, x': Node, y: Node, xy: set<Packet>, yx: set<Packet>, more: seq<byte>)
    requires Direction(x, y, xy, yx)
    requires x'.k.snd == x.k.snd.(queue := x'.k.snd.queue) && x'.log == x.log && x'.sent == x.sent + more
    requires Bytes(x'.k.snd.queue) == Bytes(x.k.snd.queue) + more && QueueOk(x'.k.snd.queue)
    ensures Direction(x', y, xy, yx)
  {
    Assoc(Concat(x.log), Bytes(x.k.snd.queue), more);
  }

  lemma SendOnlyQueues(k: State, buffer: seq<byte>)
    ensures var k' := Send(k, buffer).k; k' == k.(snd := k.snd.(queue := k'.snd.queue))
  {
  }

  lemma SenderStep(x: Node, y: Node, xy: set<Packet>, yx: set<Packet>, op: Op)
    requires Good(x.k) && Direction(x, y, xy, yx) && NetOk(x.k.cfg.conv, yx) && Possible(x.k, op, yx)
    ensures Direction(NodeStep(x, op), y, xy + Out(x.k, op), yx)
  {
    if op.OpInput? {
      var p :| p in yx && Delivers(x.k, op, p);
      InputSenderOk(x, y, xy, yx, op, p);
    } else if op.OpFlush? {
      FlushedSender(x, y, xy, yx, op.full, op.clock);
    } else {
      assert Out(x.k, op) == {} && xy + {} == xy;
      if op.OpSend? { SendSenderOk(x, y, xy, yx, op.buffer); } else { OtherSenderOk(x, y, xy, yx, op); }
    }
  }

  lemma OtherSenderOk(x: Node, y: Node, xy: set<Packet>, yx: set<Packet>, op: Op)
    requires Good(x.k) && Direction(x, y, xy, yx) && !op.OpInput? && !op.OpFlush? && !op.OpSend?
    ensures Direction(NodeStep(x, op), y, xy, yx)
  {
    UnsentStep(x.k, op, x.log, y.k.rcv);
    assert NodeStep(x, op).log == x.log;
  }

  /** Operations that leave the send buffer as it is, timers aside. */
  lemma UnsentStep(k: State, op: Op, log: seq<Frag>, r: Receiver)
    requires Good(k) && SndOk(k.snd, log, r) && !op.OpInput? && !op.OpFlush? && !op.OpSend?
    ensures Step(k, op).snd.total == k.snd.total && Step(k, op).snd.queue == k.snd.queue
    ensures SndOk(Step(k, op).snd, log, r)
  {
    hide Good, Flush, Input, Send, MoveAvailable, W, Held, PeekSize, MessageEnd, Bytes, DataLen;
    if !op.OpResetRTO? { assert Step(k, op).snd == k.snd; }
  }

  // ---------------------------------------------- a step of the receiving side

  lemma ReceiverGrows(x: Node, y: Node, y': Node, xy: set<Packet>, yx: set<Packet>, out: set<Packet>)
    requires Direction(x, y, xy, yx)
    requires RcvOk(y'.k.rcv, x.log) && Grows(y.k.rcv, y'.k.rcv) && AcksOk(y'.k.acks, y'.k.rcv)
    requires AckNet(out, y'.k.rcv) && GotOk(x.log, y')
    ensures Direction(x, y', xy, yx + out)
  {
  }

  lemma FlushedReceiver(x: Node, y: Node, xy: set<Packet>, yx: set<Packet>, full: bool, clock: seq<u32>)
    requires Direction(x, y, xy, yx)
    ensures Direction(x, FlushNode(y, full, clock), xy, yx + FlushOut(y.k, full, clock))
  {
    forall p: Packet | p in FlushOut(y.k, full, clock) ensures AckPacket(p, y.k.rcv) {
      forall i | 0 <= i < |p| ensures AckOk(p[i], y.k.rcv) { FlushAckOk(y.k, full, clock, p, i); }
    }
    ReceiverGrows(x, y, FlushNode(y, full, clock), xy, yx, FlushOut(y.k, full, clock));
  }

  lemma InputReceiverOk(x: Node, y: Node, xy: set<Packet>, yx: set<Packet>, op: Op, p: Packet)
    requires Good(y.k) && Direction(x, y, xy, yx) && NetOk(y.k.cfg.conv, xy)
    requires op.OpInput? && p in xy && Delivers(y.k, op, p)
    ensures Direction(x, NodeStep(y, op), xy, yx + Out(y.k, op))
  {
    hide NodeStep, Out, Absorb, FlushNode, FlushOut, Good, AllSendable;
    var y1, choice := InputSplits(y, op, p);
    assert p[..|p|] == p;
    AbsorbReceiverOk(y.k, p, |p|, op.regular, x.log);
    ReceiverGrows(x, y, y1, xy, yx, {});
    assert yx + {} == yx;
    if !choice.NoFlush? { FlushedReceiver(x, y1, xy, yx, choice.Full?, op.clock); }
  }

  /** Reading drops a prefix of the queue and hands over exactly its bytes. */
  lemma DropReads(r: Receiver, log: seq<Frag>, n: nat)
    requires RcvOk(r, log) && n <= |r.queue|
    ensures var r' := r.(queue := r.queue[n..]);
            && RcvOk(r', log) && Grows(r, r') && Consumed(r') == Consumed(r) + n
            && Concat(log[..Consumed(r')]) == Concat(log[..Consumed(r)]) + Bytes(r.queue[..n])
  {
    hide Bytes, FragsOf, Concat, RcvInv;
    DropHolds(r, log, n);
    ReadFrags(r, log, n);
    var c := Consumed(r);
    assert log[..c + n] == log[..c] + log[c..c + n];
    ConcatAppend(log[..c], log[c..c + n]);
    BytesIsConcat(r.queue[..n]);
  }

  lemma DropHolds(r: Receiver, log: seq<Frag>, n: nat)
    requires RcvOk(r, log) && n <= |r.queue|
    ensures 0 <= Consumed(r) && RcvOk(r.(queue := r.queue[n..]), log) && Grows(r, r.(queue := r.queue[n..]))
  {
    DropKeeps(r, n);
  }

  lemma ReadFrags(r: Receiver, log: seq<Frag>, n: nat)
    requires RcvOk(r, log) && n <= |r.queue| && 0 <= Consumed(r)
    ensures Consumed(r) + n <= |log| && FragsOf(r.queue[..n]) == log[Consumed(r)..Consumed(r) + n]
  {
    hide RcvInv;
  }

  lemma RecvShape(k: State, room: nat)
    requires Recv(k, room).n >= 0
    ensures var q, k' := k.rcv.queue, Recv(k, room).k;
            && k'.rcv == MoveAvailable(k.rcv.(queue := q[MessageEnd(q)..]))
            && k'.acks == k.acks && Recv(k, room).data == Bytes(q[..MessageEnd(q)])
  {
  }

  lemma RecvNodeShape(n: Node, room: nat)
    ensures var r, n' := Recv(n.k, room), NodeStep(n, OpRecv(room));
            n' == n.(k := r.k, got := if r.n >= 0 then n.got + [r.data] else n.got)
  {
    assert Recv(n.k, room).k.snd == n.k.snd;
    assert n.log + [] == n.log;
  }

  lemma JoinAppend(ms: seq<seq<byte>>, m: seq<byte>)
    ensures Join(ms + [m]) == Join(ms) + m
  {
    assert (ms + [m])[..|ms|] == ms;
  }

  /** A read takes a prefix of the queue and refills it from the buffer. */
  lemma ReadOk(r: Receiver, log: seq<Frag>, got: seq<seq<byte>>, n: nat)
    requires RcvOk(r, log) && n <= |r.queue| && Concat(log[..Consumed(r)]) == Join(got)
    ensures var r' := MoveAvailable(r.(queue := r.queue[n..]));
            && RcvOk(r', log) && Grows(r, r')
            && Concat(log[..Consumed(r')]) == Join(got + [Bytes(r.queue[..n])])
  {
    hide MoveAvailable, Bytes, Concat, Join, RcvOk;
    DropReads(r, log, n);
    MoveAvailableOk(r.(queue := r.queue[n..]), log);
    JoinAppend(got, Bytes(r.queue[..n]));
  }

  lemma RecvReceiverOk(x: Node, y: Node, xy: set<Packet>, yx: set<Packet>, room: nat)
    requires Good(y.k) && Direction(x, y, xy, yx)
    ensures Direction(x, NodeStep(y, OpRecv(room)), xy, yx)
  {
    hide MoveAvailable, Good, Bytes, Join, Concat;
    RecvNodeShape(y, room);
    if Recv(y.k, room).n >= 0 {
      RecvShape(y.k, room);
      ReadOk(y.k.rcv, x.log, y.got, MessageEnd(y.k.rcv.queue));
      ReceiverGrows(x, y, NodeStep(y, OpRecv(room)), xy, yx, {});
      assert yx + {} == yx;
    }
  }

  lemma ReceiverStep(x: Node, y: Node, xy: set<Packet>, yx: set<Packet>, op: Op)
    requires Good(y.k) && Direction(x, y, xy, yx) && NetOk(y.k.cfg.conv, xy) && Possible(y.k, op, xy)
    ensures Direction(x, NodeStep(y, op), xy, yx + Out(y.k, op))
  {
    hide Good, Flush, Input, Recv, MoveAvailable;
    if op.OpInput? {
      var p :| p in xy && Delivers(y.k, op, p);
      InputReceiverOk(x, y, xy, yx, op, p);
    } else if op.OpFlush? {
      FlushedReceiver(x, y, xy, yx, op.full, op.clock);
    } else {
      assert Out(y.k, op) == {} && yx + {} == yx;
      if op.OpRecv? { RecvReceiverOk(x, y, xy, yx, op.room); }
      else {
        QuietStep(y.k, op, x.log);
        ReceiverGrows(x, y, NodeStep(y, op), xy, yx, {});
      }
    }
  }

  /** Operations that leave the receive side as it is, up to the window size. */
  lemma QuietStep(k: State, op: Op, log: seq<Frag>)
    requires Good(k) && RcvOk(k.rcv, log) && !op.OpInput? && !op.OpFlush? && !op.OpRecv?
    ensures RcvOk(Step(k, op).rcv, log) && Grows(k.rcv, Step(k, op).rcv)
    ensures Step(k, op).acks == k.acks && Consumed(Step(k, op).rcv) == Consumed(k.rcv)
  {
    hide RcvInv, Flush, Input, Enqueue;
    if op.OpWndSize? { StepKeeps(k, op); }
    else if op.OpSend? { SendKeeps(k, op.buffer); }
    else { assert Step(k, op).rcv == k.rcv; }
  }
}
