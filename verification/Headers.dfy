/** What the headers of emitted segments say: the room left in the receive queue, the
    next number expected, acknowledgements, window probes and their answers. */
module Headers {
  import opened Facts
  import opened Serial
  import opened KcpState
  import opened WireFormat
  import opened KcpWindows
  import opened Delivery
  import opened Accounting

  // ---------------------------------------------------------- the window announced

  lemma RoomIs(r: Receiver)
    requires |r.queue| <= r.wnd <= WND_MAX
    ensures WndUnused(r) == r.wnd - |r.queue|
  {
  }

  /** The segment tells what the receive side looks like. */
  ghost predicate Tells(w: Wire, r: Receiver) { w.wnd == r.wnd - |r.queue| && w.una == r.nxt }

  lemma FlushTells(k: State, full: bool, clock: seq<u32>, p: Packet, i: nat)
    requires p in Flush(k, full, clock).packets && i < |p| && |k.rcv.queue| <= k.rcv.wnd <= WND_MAX
    ensures Tells(p[i].w, Flush(k, full, clock).k.rcv)
  {
    hide Flush, WndUnused;
    FlushEmits(k, full, clock, p, i);
    FlushKeepsReceiver(k, full, clock);
    RoomIs(k.rcv);
  }

  /** Every segment that an operation emits tells about the state the operation leaves. */
  lemma StepTells(k: State, op: Op, p: Packet, i: nat)
    requires p in Emitted(k, op) && i < |p| && |Step(k, op).rcv.queue| <= Step(k, op).rcv.wnd <= WND_MAX
    ensures Tells(p[i].w, Step(k, op).rcv)
  {
    hide Flush, InputBytes, Tells;
    match op
    case OpFlush(full, clock) =>
      FlushKeepsReceiver(k, full, clock);
      FlushTells(k, full, clock, p, i);
    case OpInput(_, _, _, _, clock) =>
      var k', choice := InputIsFlush(k, op);
      FlushKeepsReceiver(k', choice.Full?, clock);
      FlushTells(k', choice.Full?, clock, p, i);
    case _ =>
  }

  /** In every run with the receive window fixed, whatever bytes arrive: every segment
      of every packet, data and control, says exactly how much room the receive queue
      has left, so nothing exactly when it is full, and which number comes next. */
  lemma HeadersTellRoom(conv: u32, wnd: u32, ks: seq<State>, ops: seq<Op>, n: nat, p: Packet, i: nat)
    requires IsRun(ks, ops) && ks[0] == WndSize(Fresh(conv), 0, wnd) && 0 < wnd <= WND_MAX && n < |ops|
    requires forall i :: 0 <= i < |ops| ==> KeepsRcvWnd(ops[i])
    requires p in Emitted(ks[n], ops[n]) && i < |p|
    ensures var r := ks[n + 1].rcv;
            && p[i].w.wnd == wnd - |r.queue| && p[i].w.una == W(r.total)
            && (p[i].w.wnd == 0 <==> |r.queue| == wnd)
  {
    hide Step, Emitted, WndSize;
    RunsKeepReceiveWindow(conv, wnd, ks, ops, n + 1);
    assert ks[n + 1] == Step(ks[n], ops[n]);
    StepTells(ks[n], ops[n], p, i);
  }

  // ------------------------------------------------------ segments of one kind

  /** The segments with this command, in order. */
  function Of(ts: seq<Tagged>, cmd: byte): seq<Tagged> {
    if ts == [] then []
    else Of(ts[..|ts|-1], cmd) + if ts[|ts|-1].w.cmd == cmd then [ts[|ts|-1]] else []
  }

  lemma {:induction false} OfConcat(a: seq<Tagged>, b: seq<Tagged>, cmd: byte)
    ensures Of(a + b, cmd) == Of(a, cmd) + Of(b, cmd)
  {
    if b == [] {
      assert a + b == a;
    } else {
      OfConcat(a, b[..|b|-1], cmd);
      assert (a + b)[..|a + b|-1] == a + b[..|b|-1];
    }
  }

  lemma {:induction false} OfAll(ts: seq<Tagged>, cmd: byte)
    requires forall i :: 0 <= i < |ts| ==> ts[i].w.cmd == cmd
    ensures Of(ts, cmd) == ts
  {
    if ts != [] { OfAll(ts[..|ts|-1], cmd); }
  }

  lemma {:induction false} OfNone(ts: seq<Tagged>, cmd: byte)
    requires forall i :: 0 <= i < |ts| ==> ts[i].w.cmd != cmd
    ensures Of(ts, cmd) == []
  {
    if ts != [] { OfNone(ts[..|ts|-1], cmd); }
  }

  lemma {:induction false} PutsAre(items: seq<Item>, cmd: byte)
    requires forall i :: 0 <= i < |items| && items[i].Put? ==> items[i].t.w.cmd == cmd
    ensures forall i :: 0 <= i < |Puts(items)| ==> Puts(items)[i].w.cmd == cmd
  {
    if items != [] { PutsAre(items[..|items|-1], cmd); }
  }

  /** The packets of a flush, in order: acknowledgements, probes, data. */
  lemma FlushParts(k: State, full: bool, clock: seq<u32>)
    ensures Flatten(Flush(k, full, clock).packets) ==
            Puts(AckItems(k)) + Puts(ProbeItems(k, NextProbe(k, Now(clock, 1)))) + Puts(FlushTx(k, full, clock).items)
  {
    hide AckItems, ProbeItems, NextProbe, FlushTx, Packets, Puts, Flatten, Admit, Penalize;
    var a, b, c := AckItems(k), ProbeItems(k, NextProbe(k, Now(clock, 1))), FlushTx(k, full, clock).items;
    PacketsPartition(k.cfg.mtu, a + b + c);
    PutsConcat(a + b, c);
    PutsConcat(a, b);
  }

  lemma DataArePushes(k: State, full: bool, clock: seq<u32>, i: nat)
    requires i < |Puts(FlushTx(k, full, clock).items)|
    ensures Puts(FlushTx(k, full, clock).items)[i].w.cmd == CMD_PUSH
  {
    hide Puts;
    var items := FlushTx(k, full, clock).items;
    forall j | 0 <= j < |items| ensures items[j].Put? ==> items[j].t.w.cmd == CMD_PUSH {
      var buf := Admit(k.snd, EffectiveWindow(k)).buf;
      TransmitEmits(buf, |buf|, FlushContext(k, clock), items[j]);
    }
    PutsAre(items, CMD_PUSH);
  }

  lemma AcksAreAcks(k: State, i: nat)
    requires i < |Puts(AckItems(k))|
    ensures Puts(AckItems(k))[i].w.cmd == CMD_ACK
  {
    PutsAre(AckItems(k), CMD_ACK);
  }

  /** The control segments of a flush, by command. */
  lemma FlushControls(k: State, full: bool, clock: seq<u32>, cmd: byte)
    requires cmd != CMD_PUSH
    ensures Of(Flatten(Flush(k, full, clock).packets), cmd) ==
            (if cmd == CMD_ACK then Puts(AckItems(k)) else []) + Of(Puts(ProbeItems(k, NextProbe(k, Now(clock, 1)))), cmd)
  {
    hide AckItems, ProbeItems, NextProbe, FlushTx, Flush, Puts, Flatten, Of;
    var a, b, c := Puts(AckItems(k)), Puts(ProbeItems(k, NextProbe(k, Now(clock, 1)))), Puts(FlushTx(k, full, clock).items);
    FlushParts(k, full, clock);
    OfConcat(a + b, c, cmd);
    OfConcat(a, b, cmd);
    forall i | 0 <= i < |c| ensures c[i].w.cmd == CMD_PUSH { DataArePushes(k, full, clock, i); }
    OfNone(c, cmd);
    forall i | 0 <= i < |a| ensures a[i].w.cmd == CMD_ACK { AcksAreAcks(k, i); }
    if cmd == CMD_ACK { OfAll(a, cmd); } else { OfNone(a, cmd); }
  }

  // -------------------------------------------------------------- acknowledgements

  /** The pending acknowledgements that una does not cover. */
  function NotBelow(acks: seq<AckItem>, nxt: u32): seq<AckItem> {
    if acks == [] then []
    else NotBelow(acks[..|acks|-1], nxt) + if Diff(acks[|acks|-1].sn, nxt) >= 0 then [acks[|acks|-1]] else []
  }

  /** What the acknowledgements say. */
  function Said(ts: seq<Tagged>): (s: seq<AckItem>)
    ensures |s| == |ts|
  {
    seq(|ts|, i requires 0 <= i < |ts| => AckItem(ts[i].w.sn, ts[i].w.ts, ts[i].id))
  }

  lemma SaidConcat(a: seq<Tagged>, b: seq<Tagged>)
    ensures Said(a + b) == Said(a) + Said(b)
  {
  }

  lemma {:induction false} AcksUpTo(k: State, n: nat)
    requires n < |k.acks|
    ensures Said(Puts(AckItems(k)[..n])) == NotBelow(k.acks[..n], k.rcv.nxt)
  {
    hide Said;
    if n == 0 {
      assert Said([]) == [] by { SaidNothing(); }
    } else {
      AcksUpTo(k, n - 1);
      assert AckItems(k)[..n][..n - 1] == AckItems(k)[..n - 1] && k.acks[..n][..n - 1] == k.acks[..n - 1];
      SaidConcat(Puts(AckItems(k)[..n - 1]), PutOf(AckItems(k)[n - 1]));
      SaidOne(k, n - 1);
    }
  }

  lemma SaidNothing()
    ensures Said([]) == []
  {
  }

  lemma SaidOne(k: State, i: nat)
    requires i < |k.acks|
    ensures Said(PutOf(AckItems(k)[i])) == if AckSent(k, i) then [k.acks[i]] else []
  {
  }

  /** Every flush repeats, in order, the pending acknowledgements that una does not
      cover, and the last one in any case; and it says no other. */
  lemma FlushAcknowledges(k: State, full: bool, clock: seq<u32>)
    ensures var said := Said(Of(Flatten(Flush(k, full, clock).packets), CMD_ACK));
            said == if k.acks == [] then [] else NotBelow(k.acks[..|k.acks|-1], k.rcv.nxt) + [k.acks[|k.acks|-1]]
    ensures Flush(k, full, clock).k.acks == []
  {
    hide Flush, NextProbe, NotBelow, Said, Of, Flatten;
    FlushControls(k, full, clock, CMD_ACK);
    assert Flush(k, full, clock).k.acks == [] by { FlushEmpties(k, full, clock); }
    NoAcksInProbes(k, NextProbe(k, Now(clock, 1)));
    var items := AckItems(k);
    assert Puts(items) + [] == Puts(items);
    if k.acks == [] {
      SaidNothing();
    } else {
      var n := |k.acks| - 1;
      assert items == items[..n] + [items[n]];
      AcksUpTo(k, n);
      SaidConcat(Puts(items[..n]), PutOf(items[n]));
      SaidOne(k, n);
    }
  }

  lemma FlushEmpties(k: State, full: bool, clock: seq<u32>)
    ensures Flush(k, full, clock).k.acks == []
  {
  }

  lemma NoAcksInProbes(k: State, p: Probe)
    ensures Of(Puts(ProbeItems(k, p)), CMD_ACK) == []
  {
    ProbesAre(k, p, CMD_ACK);
  }

  // ------------------------------------------------------------------- probes

  lemma ProbesAre(k: State, p: Probe, cmd: byte)
    ensures |Of(Puts(ProbeItems(k, p)), cmd)| == (if p.ask && cmd == CMD_WASK then 1 else 0) + (if p.tell && cmd == CMD_WINS then 1 else 0)
  {
    hide Of, Puts, LastAck;
    var a := if p.ask then [Put(Control(k, CMD_WASK, LastAck(k)))] else [];
    var b := if p.tell then [Put(Control(k, CMD_WINS, LastAck(k)))] else [];
    PutsConcat(a, b);
    OfConcat(Puts(a), Puts(b), cmd);
    OneOrNone(a, cmd);
    OneOrNone(b, cmd);
  }

  lemma OneOrNone(items: seq<Item>, cmd: byte)
    requires |items| <= 1 && forall i :: 0 <= i < |items| ==> items[i].Put?
    ensures |Of(Puts(items), cmd)| == if |items| == 1 && items[0].t.w.cmd == cmd then 1 else 0
  {
    if |items| == 1 {
      assert items[..0] == [] && Puts(items) == [items[0].t] && [items[0].t][..0] == [];
    }
  }

  /** The time has come to ask a peer that announced no room whether it has some. */
  ghost predicate ProbeDue(k: State, now: u32) { k.cong.rmtWnd == 0 && k.probe.wait > 0 && Diff(now, k.probe.ts) >= 0 }

  /** Every flush asks once when that is due, or has been asked for; and tells once when
      telling was asked for; afterwards nothing is asked for. */
  lemma FlushProbes(k: State, full: bool, clock: seq<u32>)
    ensures var f := Flush(k, full, clock);
            && |Of(Flatten(f.packets), CMD_WASK)| == (if k.probe.ask || ProbeDue(k, Now(clock, 1)) then 1 else 0)
            && |Of(Flatten(f.packets), CMD_WINS)| == (if k.probe.tell then 1 else 0)
            && !f.k.probe.ask && !f.k.probe.tell
  {
    hide Flatten, Of, Puts, Packets, FlushTx, Admit, Penalize, ProbeItems;
    var p := NextProbe(k, Now(clock, 1));
    FlushControls(k, full, clock, CMD_WASK);
    FlushControls(k, full, clock, CMD_WINS);
    ProbesAre(k, p, CMD_WASK);
    ProbesAre(k, p, CMD_WINS);
  }

  /** The timer of the probes: off while the peer has room; started at 500 milliseconds
      when it has none; half as long again whenever a probe is due, up to two minutes. */
  lemma ProbeTimer(k: State, full: bool, clock: seq<u32>)
    requires k.probe.wait <= PROBE_LIMIT
    ensures var p, p', now := k.probe, Flush(k, full, clock).k.probe, Now(clock, 1);
            && (k.cong.rmtWnd != 0 ==> p'.wait == 0 && p'.ts == 0)
            && (k.cong.rmtWnd == 0 && p.wait == 0 ==> p'.wait == PROBE_INIT && p'.ts == W(now + PROBE_INIT))
            && (ProbeDue(k, now) ==>
                  && p'.ts == W(now + p'.wait)
                  && (p'.wait == PROBE_LIMIT || 3 * Max(p.wait, PROBE_INIT) <= 2 * p'.wait + 1)
                  && p'.wait <= PROBE_LIMIT && 2 * p'.wait <= 3 * Max(p.wait, PROBE_INIT))
            && (k.cong.rmtWnd == 0 && p.wait > 0 && !ProbeDue(k, now) ==> p'.wait == p.wait && p'.ts == p.ts)
  {
    hide FlushTx, Packets, Admit, Penalize, Diff;
    var now := Now(clock, 1);
    hide NextProbe;
    NextTimer(k, now);
  }

  lemma NextTimer(k: State, now: u32)
    requires k.probe.wait <= PROBE_LIMIT
    ensures var p, p' := k.probe, NextProbe(k, now);
            && (k.cong.rmtWnd != 0 ==> p'.wait == 0 && p'.ts == 0)
            && (k.cong.rmtWnd == 0 && p.wait == 0 ==> p'.wait == PROBE_INIT && p'.ts == W(now + PROBE_INIT))
            && (ProbeDue(k, now) ==>
                  && p'.ts == W(now + p'.wait)
                  && (p'.wait == PROBE_LIMIT || 3 * Max(p.wait, PROBE_INIT) <= 2 * p'.wait + 1)
                  && p'.wait <= PROBE_LIMIT && 2 * p'.wait <= 3 * Max(p.wait, PROBE_INIT))
            && (k.cong.rmtWnd == 0 && p.wait > 0 && !ProbeDue(k, now) ==> p'.wait == p.wait && p'.ts == p.ts)
  {
    hide Diff, W;
    var low := Max(k.probe.wait, PROBE_INIT);
    Unwrapped(low + low / 2);
  }

  // ------------------------------------------------------- a reader that makes room

  /** Reading from a full queue asks the next flush to tell, exactly when it made room. */
  lemma RecvReports(k: State, room: nat)
    ensures var r := Recv(k, room);
            r.k.probe.tell <==> k.probe.tell || (r.n >= 0 && |k.rcv.queue| >= k.rcv.wnd && |r.k.rcv.queue| < k.rcv.wnd)
    ensures var r := Recv(k, room); r.k.probe == k.probe.(tell := r.k.probe.tell)
  {
    hide PeekSize, MessageEnd, Bytes;
    var n := MessageEnd(k.rcv.queue);
    KeepsWnd(k.rcv.(queue := k.rcv.queue[n..]));
  }

  lemma {:induction false} KeepsWnd(r: Receiver)
    ensures MoveAvailable(r).wnd == r.wnd
    decreases |r.buf|
  {
    if r.nxt in r.buf && |r.queue| < r.wnd { KeepsWnd(Moved(r)); }
  }

  /** So the next flush sends one answer, with the room there is then. */
  lemma RoomIsReported(k: State, room: nat, full: bool, clock: seq<u32>)
    requires |k.rcv.queue| == k.rcv.wnd <= WND_MAX && Recv(k, room).n >= 0
    ensures var k' := Recv(k, room).k;
            var wins := Of(Flatten(Flush(k', full, clock).packets), CMD_WINS);
            |k'.rcv.queue| < k'.rcv.wnd ==> |wins| == 1 && wins[0].w.wnd == k'.rcv.wnd - |k'.rcv.queue| > 0
  {
    hide Recv, Flush, Flatten, Of;
    var k' := Recv(k, room).k;
    var ts := Flatten(Flush(k', full, clock).packets);
    RecvReports(k, room);
    RecvKeepsWnd(k, room);
    FlushProbes(k', full, clock);
    if |k'.rcv.queue| < k'.rcv.wnd {
      OfIsIn(ts, CMD_WINS, 0);
      FlattenFinds(Flush(k', full, clock).packets, Of(ts, CMD_WINS)[0]);
      var p: Packet :| p in Flush(k', full, clock).packets && Of(ts, CMD_WINS)[0] in p;
      var i :| 0 <= i < |p| && p[i] == Of(ts, CMD_WINS)[0];
      FlushTells(k', full, clock, p, i);
      FlushKeepsReceiver(k', full, clock);
    }
  }

  lemma RecvKeepsWnd(k: State, room: nat)
    ensures Recv(k, room).k.rcv.wnd == k.rcv.wnd
  {
    KeepsWnd(k.rcv.(queue := k.rcv.queue[MessageEnd(k.rcv.queue)..]));
  }

  lemma {:induction false} OfIsIn(ts: seq<Tagged>, cmd: byte, i: nat)
    requires i < |Of(ts, cmd)|
    ensures Of(ts, cmd)[i] in ts && Of(ts, cmd)[i].w.cmd == cmd
  {
    if i < |Of(ts[..|ts|-1], cmd)| { OfIsIn(ts[..|ts|-1], cmd, i); }
  }
}
