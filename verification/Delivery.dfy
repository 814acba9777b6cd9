/** Two endpoints over a network that loses, duplicates and reorders packets.

    Every packet ever emitted stays deliverable for ever, any number of times; a
    packet that is never delivered again is a lost one.  The only assumption on
    the network is freshness: when an endpoint gets to a segment, the numbers in
    it lag less than 2^31 behind the endpoint's own counters. */
module Delivery {
  import opened Serial
  import opened KcpState
  import opened WireFormat
  import opened KcpWindows

  type Packet = seq<Tagged>

  /** What a sequence number stands for. */
  datatype Frag = Frag(frg: byte, data: seq<byte>)

  function FragOf(g: Segment): Frag { Frag(g.frg, g.data) }

  function FragsOf(q: seq<Segment>): (fs: seq<Frag>)
    ensures |fs| == |q|
    ensures forall i :: 0 <= i < |q| ==> fs[i] == FragOf(q[i])
  {
    seq(|q|, i requires 0 <= i < |q| => FragOf(q[i]))
  }

  // -------------------------------------------------- one direction of traffic

  /** The receiver has segment number `l`: delivered in order, or buffered. */
  ghost predicate Held(r: Receiver, l: int) {
    0 <= l && (l < r.total || (l < r.total + HALF && W(l) in r.buf))
  }

  /** Everything the receiver has is what the sender put under that number. */
  ghost predicate RcvOk(r: Receiver, log: seq<Frag>) {
    && RcvInv(r)
    && r.total <= |log|
    && (forall i :: 0 <= i < |r.queue| ==> FragOf(r.queue[i]) == log[r.total - |r.queue| + i])
    && (forall l :: r.total <= l < r.total + HALF && W(l) in r.buf ==> l < |log| && FragOf(r.buf[W(l)]) == log[l])
  }

  /** The send buffer agrees with the log, and nothing was dropped from it or
      recycled before the receiver had it. */
  ghost predicate SndOk(s: Sender, log: seq<Frag>, r: Receiver) {
    && SndInv(s)
    && |log| == s.total
    && Base(s) <= r.total <= s.total
    && forall i :: 0 <= i < |s.buf| ==>
         && s.buf[i].frg == log[Base(s) + i].frg
         && (if s.buf[i].acked then Held(r, Base(s) + i) else s.buf[i].data == log[Base(s) + i].data)
  }

  /** A data segment in flight carries the content its number stands for. */
  ghost predicate PushOk(t: Tagged, log: seq<Frag>) {
    t.w.cmd == CMD_PUSH ==> 0 <= t.id < |log| && t.w.sn == W(t.id) && Frag(t.w.frg, t.w.data) == log[t.id]
  }

  /** Acknowledgements in flight are true. */
  ghost predicate AckOk(t: Tagged, r: Receiver) {
    && 0 <= t.unaId <= r.total && t.w.una == W(t.unaId)
    && (t.w.cmd == CMD_ACK ==> t.w.sn == W(t.id) && Held(r, t.id))
  }

  ghost predicate AcksOk(acks: seq<AckItem>, r: Receiver) {
    forall i :: 0 <= i < |acks| ==> acks[i].sn == W(acks[i].id) && Held(r, acks[i].id)
  }

  /** The receiver only gains. */
  ghost predicate Grows(r: Receiver, r': Receiver) {
    && r.total <= r'.total
    && forall l :: Held(r, l) ==> Held(r', l)
  }

  lemma HeldIsLogged(r: Receiver, log: seq<Frag>, l: int)
    requires RcvOk(r, log) && Held(r, l)
    ensures l < |log|
  {
  }

  // ------------------------------------------------------------- sender steps

  lemma CumulativeOk(s: Sender, log: seq<Frag>, r: Receiver, unaId: int)
    requires SndOk(s, log, r) && 0 <= unaId <= r.total && Base(s) - unaId < HALF
    ensures SndOk(Cumulative(s, W(unaId)), log, r)
    ensures Base(Cumulative(s, W(unaId))) == Max(Base(s), unaId)
  {
    hide W, Diff, Held;
    DiffIsUnboundedDifference(unaId, Base(s));
    CumulativeKeeps(s, W(unaId));
    var n := Acknowledged(s, W(unaId));
    var s' := Cumulative(s, W(unaId));
    assert forall i :: 0 <= i < |s'.buf| ==> s'.buf[i] == s.buf[n + i];
  }

  lemma PositionOf(s: Sender, id: int)
    requires SndInv(s) && -RANGE < id - Base(s) < HALF
    ensures Position(s, W(id)) == if id >= Base(s) then id - Base(s) else id - Base(s) + RANGE
  {
    hide Ahead, W;
    var b := Base(s);
    if id >= b {
      AheadOf(b, id - b);
    } else {
      OnceRound(id);
      AheadOf(b, id - b + RANGE);
    }
  }

  lemma OnceRound(id: int)
    ensures W(id + RANGE) == W(id)
  {
  }

  lemma ParseAckOk(s: Sender, log: seq<Frag>, r: Receiver, id: int)
    requires SndOk(s, log, r) && RcvOk(r, log) && Held(r, id) && Base(s) - id < RANGE - WND_MAX
    ensures SndOk(ParseAck(s, W(id)), log, r) && Base(ParseAck(s, W(id))) == Base(s)
  {
    HeldIsLogged(r, log, id);
    ParseAckKeeps(s, W(id));
    PositionOf(s, id);
  }

  lemma ParseFastackOk(s: Sender, log: seq<Frag>, r: Receiver, sn: u32, ts: u32)
    requires SndOk(s, log, r)
    ensures SndOk(ParseFastack(s, sn, ts), log, r) && Base(ParseFastack(s, sn, ts)) == Base(s)
  {
    ParseFastackKeeps(s, sn, ts);
  }

  /** The log after a flush: the admitted segments got numbers. */
  function Logged(log: seq<Frag>, queue: seq<Segment>, n: int): seq<Frag>
    requires 0 <= n <= |queue|
  {
    log + FragsOf(queue[..n])
  }

  lemma AdmitOk(s: Sender, log: seq<Frag>, r: Receiver, cwnd: u32)
    requires SndOk(s, log, r) && cwnd <= WND_MAX
    requires forall i :: 0 <= i < |s.queue| ==> !s.queue[i].acked
    ensures SndOk(Admit(s, cwnd), Logged(log, s.queue, Admitted(s, cwnd)), r)
  {
    AdmitKeeps(s, cwnd);
    var s' := Admit(s, cwnd);
    var log' := Logged(log, s.queue, Admitted(s, cwnd));
    forall i | 0 <= i < |s'.buf|
      ensures s'.buf[i].frg == log'[Base(s') + i].frg
      ensures if s'.buf[i].acked then Held(r, Base(s') + i) else s'.buf[i].data == log'[Base(s') + i].data
    {
      if i < |s.buf| { assert s'.buf[i] == s.buf[i]; }
    }
  }

  // ----------------------------------------------------------- receiver steps

  lemma MovedOk(r: Receiver, log: seq<Frag>)
    requires RcvOk(r, log) && r.nxt in r.buf
    ensures RcvOk(Moved(r), log) && Grows(r, Moved(r))
  {
    MovedKeeps(r);
    MovedGrows(r);
    var r' := Moved(r);
    assert W(r.total) in r.buf;
    forall i | 0 <= i < |r'.queue| ensures FragOf(r'.queue[i]) == log[r'.total - |r'.queue| + i] {
      if i < |r.queue| { assert r'.queue[i] == r.queue[i]; }
    }
    forall l | r'.total <= l < r'.total + HALF && W(l) in r'.buf ensures l < |log| && FragOf(r'.buf[W(l)]) == log[l] {
      OffsetOf(r, l);
    }
  }

  lemma MovedGrows(r: Receiver)
    requires RcvInv(r) && r.nxt in r.buf
    ensures Grows(r, Moved(r))
  {
    forall l | Held(r, l) ensures Held(Moved(r), l) {
      if l > r.total { WInjective(l, r.total); }
    }
  }

  lemma {:induction false} MoveAvailableOk(r: Receiver, log: seq<Frag>)
    requires RcvOk(r, log)
    ensures RcvOk(MoveAvailable(r), log) && Grows(r, MoveAvailable(r))
    ensures MoveAvailable(r).total - |MoveAvailable(r).queue| == r.total - |r.queue|
    decreases |r.buf|
  {
    if r.nxt in r.buf && |r.queue| < r.wnd {
      MovedOk(r, log);
      MoveAvailableOk(Moved(r), log);
    }
  }

  lemma InsertOk(r: Receiver, log: seq<Frag>, g: Segment, id: int)
    requires RcvOk(r, log) && |log| <= r.total + WND_MAX
    requires r.total <= id < |log| && g.sn == W(id) && FragOf(g) == log[id]
    ensures var r' := if g.sn in r.buf then r else r.(buf := r.buf[g.sn := g]);
            RcvOk(r', log) && Grows(r, r') && Held(r', id)
  {
    if g.sn !in r.buf {
      var r' := r.(buf := r.buf[g.sn := g]);
      OffsetOf(r, id);
      forall sn | sn in r'.buf ensures r'.buf[sn].sn == sn && Offset(r', sn) < HALF {
        assert Offset(r', sn) == Offset(r, sn);
      }
      forall l | r'.total <= l < r'.total + HALF && W(l) in r'.buf ensures l < |log| && FragOf(r'.buf[W(l)]) == log[l] {
        WInjective(l, id);
      }
    }
  }

  lemma OffsetOf(r: Receiver, l: int)
    requires r.nxt == W(r.total) && r.total <= l < r.total + RANGE
    ensures Offset(r, W(l)) == l - r.total
  {
  }

  lemma ParseDataOk(r: Receiver, log: seq<Frag>, g: Segment, id: int)
    requires RcvOk(r, log) && |log| <= r.total + WND_MAX
    requires 0 <= id < |log| && r.total - id < HALF && g.sn == W(id) && FragOf(g) == log[id]
    ensures RcvOk(ParseData(r, g), log) && Grows(r, ParseData(r, g))
    ensures BelowWindowTop(r, g.sn) ==> Held(ParseData(r, g), id)
    ensures ParseData(r, g).total - |ParseData(r, g).queue| == r.total - |r.queue|
  {
    DiffIsUnboundedDifference(id, r.total);
    if InWindow(r, g.sn) {
      var r' := if g.sn in r.buf then r else r.(buf := r.buf[g.sn := g]);
      InsertOk(r, log, g, id);
      MoveAvailableOk(r', log);
    }
  }

  // -------------------------------------------------------- what a flush emits

  lemma {:induction false} InFlatten(ps: seq<seq<Tagged>>, j: nat, i: nat)
    requires j < |ps| && i < |ps[j]|
    ensures ps[j][i] in Flatten(ps)
  {
    if j < |ps| - 1 { InFlatten(ps[..|ps|-1], j, i); }
  }

  lemma {:induction false} InPuts(items: seq<Item>, t: Tagged)
    requires t in Puts(items)
    ensures Put(t) in items
  {
    if t in Puts(items[..|items|-1]) { InPuts(items[..|items|-1], t); }
  }

  /** What an emitted segment can be: it always carries the receiver's position,
      an ACK repeats a pending acknowledgement, and a PUSH shows an
      unacknowledged segment of the send buffer. */
  ghost predicate EmittedBy(k: State, k': State, t: Tagged) {
    && t.w.conv == k.cfg.conv && KnownCmd(t.w.cmd)
    && t.w.una == k.rcv.nxt && t.unaId == k.rcv.total && t.w.wnd == WndUnused(k.rcv)
    && (t.w.cmd != CMD_PUSH ==> t.w.data == [])
    && (t.w.cmd == CMD_ACK ==> exists i :: 0 <= i < |k.acks| && t.w.sn == k.acks[i].sn && t.id == k.acks[i].id)
    && (t.w.cmd == CMD_PUSH ==> ShowsSegment(k'.snd.buf, Base(k.snd), t))
  }

  predicate ShowsSegment(buf: seq<Segment>, base: int, t: Tagged) {
    var i := t.id - base;
    && 0 <= i < |buf| && t.w.sn == buf[i].sn && t.w.frg == buf[i].frg && t.w.data == buf[i].data && t.w.ts == buf[i].ts
    && !buf[i].acked
  }

  ghost predicate PushItem(buf: seq<Segment>, c: TxContext, i: Item) {
    i.Put? && i.t.w.cmd == CMD_PUSH && i.t.w.conv == c.cfg.conv && i.t.w.una == c.una && i.t.unaId == c.unaId
    && i.t.w.wnd == c.wnd && ShowsSegment(buf, c.base, i.t)
  }

  lemma {:induction false} TransmitEmits(buf: seq<Segment>, n: nat, c: TxContext, i: Item)
    requires n <= |buf| && i in Transmit(buf, n, c).items
    ensures PushItem(Transmit(buf, n, c).buf, c, i)
  {
    if n > 0 {
      var t := Transmit(buf, n - 1, c);
      if i in t.items { TransmitEmits(buf, n - 1, c, i); }
    }
  }

  lemma ItemsEmitted(k: State, full: bool, clock: seq<u32>, t: Tagged)
    requires Put(t) in FlushItems(k, full, clock)
    ensures EmittedBy(k, Flush(k, full, clock).k, t)
  {
    var i := Put(t);
    var buf := Admit(k.snd, EffectiveWindow(k)).buf;
    if i in AckItems(k) {
      var j :| 0 <= j < |k.acks| && i == AckItems(k)[j];
    } else if i in ProbeItems(k, NextProbe(k, Now(clock, 1))) {
    } else {
      TransmitEmits(buf, |buf|, FlushContext(k, clock), i);
    }
  }

  lemma FlushEmits(k: State, full: bool, clock: seq<u32>, p: Packet, i: nat)
    requires p in Flush(k, full, clock).packets && i < |p|
    ensures EmittedBy(k, Flush(k, full, clock).k, p[i])
  {
    var items := FlushItems(k, full, clock);
    var ps := Packets(k.cfg.mtu, items);
    PacketsPartition(k.cfg.mtu, items);
    var j :| 0 <= j < |ps| && ps[j] == p;
    InFlatten(ps, j, i);
    InPuts(items, p[i]);
    ItemsEmitted(k, full, clock, p[i]);
  }
}
