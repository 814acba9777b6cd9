/** How large packets get, over whole runs in which the MTU changes. */
module PacketSizes {
  import opened Serial
  import opened KcpState
  import opened WireFormat
  import opened KcpWindows
  import opened Delivery
  import opened KcpEngine

  /** The largest MTU in force so far. */
  function LargestMtu(ops: seq<Op>): (m: u32) {
    if ops == [] then MTU_DEF
    else
      var m, last := LargestMtu(ops[..|ops|-1]), ops[|ops|-1];
      if last.OpSetMtu? then Max(m, last.mtu) else m
  }

  lemma MoreRoom(k: State, room: int, room': int)
    requires Room(k, room) && room <= room'
    ensures Room(k, room')
  {
  }

  lemma {:induction false} AbsorbRoom(k: State, ts: seq<Tagged>, regular: bool, room: int)
    requires Room(k, room)
    ensures Room(Absorb(k, ts, regular).k, room)
  {
    hide SenderAfter, ReceiverAfter, AcksAfter, WantsFlush;
    if ts != [] {
      AbsorbRoom(k, ts[..|ts|-1], regular, room);
      SenderAfterFits(Absorb(k, ts[..|ts|-1], regular).k.snd, ts[|ts|-1].w, room);
    }
  }

  lemma BeforeFlushRoom(k: State, ts: seq<Tagged>, regular: bool, now: u32, room: int)
    requires Room(k, room)
    ensures Room(BeforeFlush(k, ts, regular, now), room) && BeforeFlush(k, ts, regular, now).cfg == k.cfg
  {
    hide Absorb, Grow, UpdateAck;
    AbsorbRoom(k, ts, regular, room);
    AbsorbKeepsConfig(k, ts, regular);
    var a := Absorb(k, ts, regular);
    if a.acked && regular && Diff(now, a.latest) >= 0 { UpdateKeeps(a.k, Diff(now, a.latest)); }
  }

  lemma UpdateKeeps(k: State, rtt: nat31)
    ensures UpdateAck(k, rtt) == k.(rtt := UpdateAck(k, rtt).rtt)
  {
  }

  lemma InputRoom(k: State, ts: seq<Tagged>, code: int, regular: bool, ackNoDelay: bool, clock: seq<u32>, room: int)
    requires Room(k, room)
    ensures Room(Input(k, ts, code, regular, ackNoDelay, clock).k, room)
  {
    hide Flush, Absorb, BeforeFlush, Room;
    AbsorbRoom(k, ts, regular, room);
    BeforeFlushRoom(k, ts, regular, Now(clock, 0), room);
    var k' := BeforeFlush(k, ts, regular, Now(clock, 0));
    FlushFits(k', InputFlush(Absorb(k, ts, regular).flush, k', ackNoDelay).Full?, clock, room);
  }

  lemma StepRoom(k: State, op: Op, room: int)
    requires Good(k) && Room(k, room) && (op.OpSetMtu? ==> op.mtu <= room)
    ensures Room(Step(k, op), room)
  {
    hide Flush, Input, Enqueue, MoveAvailable, PeekSize, MessageEnd;
    match op
    case OpSend(buffer) => EnqueueFits(k.snd.queue, buffer, k.cfg.mss, k.cfg.stream, room);
    case OpInput(data, ids, regular, ackNoDelay, clock) =>
      var p := Parse(k.cfg.conv, data);
      InputRoom(k, TagAll(p.segs, ids), p.code, regular, ackNoDelay, clock, room);
    case OpFlush(full, clock) => FlushFits(k, full, clock, room);
    case _ =>
  }

  /** In every run, whatever bytes arrive and however the MTU changes, every waiting
      segment fits the largest MTU so far. */
  lemma {:induction false} RunsKeepRoom(conv: u32, ks: seq<State>, ops: seq<Op>, n: nat)
    requires IsRun(ks, ops) && ks[0] == Fresh(conv) && n < |ks|
    ensures Good(ks[n]) && Room(ks[n], LargestMtu(ops[..n]))
  {
    hide Step, Good;
    RunsKeepWindows(conv, ks, ops, n);
    if n > 0 {
      RunsKeepRoom(conv, ks, ops, n - 1);
      RunsKeepWindows(conv, ks, ops, n - 1);
      assert ops[..n][..n - 1] == ops[..n - 1];
      MoreRoom(ks[n - 1], LargestMtu(ops[..n - 1]), LargestMtu(ops[..n]));
      StepRoom(ks[n - 1], ops[n - 1], LargestMtu(ops[..n]));
    }
  }

  /** A packet exceeds the MTU only when it is one segment, and then that segment was
      already waiting. */
  lemma FlushPacketBound(k: State, full: bool, clock: seq<u32>, p: Packet, room: int)
    requires Room(k, room) && k.cfg.mtu >= OVERHEAD && p in Flush(k, full, clock).packets
    ensures |EncodeAll(p)| <= k.cfg.mtu || (|p| == 1 && |EncodeAll(p)| <= room)
  {
    hide Flush, Room, EmittedBy;
    FlushPacketFits(k, full, clock, p);
    if |EncodeAll(p)| > k.cfg.mtu {
      FlushEmits(k, full, clock, p, 0);
      FlushFits(k, full, clock, room);
      OneSegment(p);
      SegmentFits(k, Flush(k, full, clock).k, p[0], room);
    }
  }

  lemma FlushPacketFits(k: State, full: bool, clock: seq<u32>, p: Packet)
    requires p in Flush(k, full, clock).packets
    ensures Fits(k.cfg.mtu, p)
  {
    hide FlushItems, FlushTx, Admit, Penalize, NextProbe, Packets, Fits;
    PacketsPartition(k.cfg.mtu, FlushItems(k, full, clock));
  }

  lemma OneSegment(p: Packet)
    requires |p| == 1
    ensures |EncodeAll(p)| == OVERHEAD + |p[0].w.data|
  {
    assert p[..0] == [];
  }

  lemma SegmentFits(k: State, k': State, t: Tagged, room: int)
    requires EmittedBy(k, k', t) && Room(k', room) && Room(k, room) && k.cfg.mtu >= OVERHEAD
    ensures OVERHEAD + |t.w.data| <= room
  {
  }

  lemma PacketBound(k: State, op: Op, p: Packet, room: int)
    requires Room(k, room) && k.cfg.mtu >= OVERHEAD && p in Emitted(k, op)
    ensures |EncodeAll(p)| <= k.cfg.mtu || (|p| == 1 && |EncodeAll(p)| <= room)
  {
    hide Flush, Absorb, BeforeFlush, Room;
    match op
    case OpFlush(full, clock) => FlushPacketBound(k, full, clock, p, room);
    case OpInput(data, ids, regular, ackNoDelay, clock) =>
      var parsed := Parse(k.cfg.conv, data);
      var ts := TagAll(parsed.segs, ids);
      BeforeFlushRoom(k, ts, regular, Now(clock, 0), room);
      var k' := BeforeFlush(k, ts, regular, Now(clock, 0));
      FlushPacketBound(k', InputFlush(Absorb(k, ts, regular).flush, k', ackNoDelay).Full?, clock, p, room);
    case _ =>
  }

  /** In every run each emitted packet is at most the MTU in force, or one segment
      that is at most the largest MTU so far. */
  lemma PacketsWithinMtu(conv: u32, ks: seq<State>, ops: seq<Op>, n: nat, p: Packet)
    requires IsRun(ks, ops) && ks[0] == Fresh(conv) && n < |ops| && p in Emitted(ks[n], ops[n])
    ensures |EncodeAll(p)| <= ks[n].cfg.mtu || (|p| == 1 && |EncodeAll(p)| <= LargestMtu(ops[..n]))
  {
    hide Step, Emitted, Room;
    RunsKeepRoom(conv, ks, ops, n);
    PacketBound(ks[n], ops[n], p, LargestMtu(ops[..n]));
  }
}
