/** The phases of flush that encode segments into the output buffer, each proved
    to hand over exactly the packets of the reference definition. */
module KcpWriter {
  import opened Serial
  import opened KcpState
  import opened WireFormat
  import opened OutputBuffer

  datatype Ack = Ack(sn: u32, ts: u32)

  /** The pending acknowledgements and the unbounded numbers behind them. */
  ghost predicate Zipped(acks: seq<Ack>, items: seq<AckItem>) {
    |acks| == |items| && forall i :: 0 <= i < |acks| ==> acks[i] == Ack(items[i].sn, items[i].ts)
  }

  lemma PackNext(mtu: u32, p: Packing, items: seq<Item>, i: nat)
    requires i < |items|
    ensures Pack(mtu, p, items[..i + 1]) == PackOne(mtu, Pack(mtu, p, items[..i]), items[i])
  {
    assert items[..i + 1][..i] == items[..i];
  }

  /** Makes room for one segment and encodes it. */
  method Write(o: Outlet, mtu: u32, off: nat, w: Wire, ghost t: Tagged, ghost p: Packing, ghost before: seq<seq<byte>>)
      returns (off': nat)
    requires o.Filled(off, p, before) && t.w == w
    requires mtu <= o.buffer.Length && OVERHEAD + |w.data| <= o.buffer.Length
    modifies o`sent, o.buffer
    ensures o.Filled(off', PackOne(mtu, p, Put(t)), before)
  {
    off' := o.MakeSpace(mtu, off, OVERHEAD + |w.data|, p, before);
    off' := o.Put(off', w, t, MakeSpace(mtu, p, OVERHEAD + |w.data|), before);
  }

  /** One pending acknowledgement: room is made for it whether or not it is sent. */
  method WriteAck(o: Outlet, mtu: u32, off: nat, send: bool, w: Wire, ghost k: State, ghost i: nat, ghost p: Packing, ghost before: seq<seq<byte>>)
      returns (off': nat)
    requires o.Filled(off, p, before) && OVERHEAD <= mtu <= o.buffer.Length && mtu == k.cfg.mtu
    requires i < |k.acks| && send == AckSent(k, i) && w == Control(k, CMD_ACK, k.acks[i]).w
    modifies o`sent, o.buffer
    ensures o.Filled(off', PackOne(mtu, p, AckItems(k)[i]), before)
  {
    off' := o.MakeSpace(mtu, off, OVERHEAD, p, before);
    if send {
      off' := o.Put(off', w, Control(k, CMD_ACK, k.acks[i]), MakeSpace(mtu, p, OVERHEAD), before);
    }
  }

  /** Phase 1: every pending acknowledgement that no later una covers, and the
      last one in any case. */
  method WriteAcks(o: Outlet, mtu: u32, conv: u32, wnd: u16, una: u32, acks: seq<Ack>, ghost k: State, ghost before: seq<seq<byte>>)
      returns (off: nat, last: Ack)
    requires o.Filled(0, Packing([], []), before) && OVERHEAD <= mtu <= o.buffer.Length
    requires mtu == k.cfg.mtu && conv == k.cfg.conv && wnd == WndUnused(k.rcv) && una == k.rcv.nxt && Zipped(acks, k.acks)
    modifies o`sent, o.buffer
    ensures o.Filled(off, Pack(mtu, Packing([], []), AckItems(k)), before)
    ensures last == Ack(LastAck(k).sn, LastAck(k).ts)
  {
    off, last := 0, Ack(0, 0);
    ghost var p := Packing([], []);
    var i := 0;
    while i < |acks|
      invariant 0 <= i <= |acks|
      invariant p == Pack(mtu, Packing([], []), AckItems(k)[..i]) && o.Filled(off, p, before)
      invariant i == |acks| > 0 ==> last == acks[i - 1]
      invariant i == 0 ==> last == Ack(0, 0)
    {
      var send := Diff(acks[i].sn, una) >= 0 || i == |acks| - 1;
      if send {
        last := acks[i];
      }
      off := WriteAck(o, mtu, off, send, Wire(conv, CMD_ACK, 0, wnd, acks[i].ts, acks[i].sn, una, []), k, i, p, before);
      PackNext(mtu, Packing([], []), AckItems(k), i);
      p := PackOne(mtu, p, AckItems(k)[i]);
      i := i + 1;
    }
    assert AckItems(k)[..i] == AckItems(k);
  }

  /** Phases 2 and 3: a window request and a window report, when due. */
  method WriteProbes(o: Outlet, mtu: u32, conv: u32, wnd: u16, una: u32, last: Ack, ask: bool, tell: bool, off: nat,
                     ghost k: State, ghost pr: Probe, ghost p: Packing, ghost before: seq<seq<byte>>)
      returns (off': nat)
    requires o.Filled(off, p, before) && OVERHEAD <= mtu <= o.buffer.Length && pr.ask == ask && pr.tell == tell
    requires mtu == k.cfg.mtu && conv == k.cfg.conv && wnd == WndUnused(k.rcv) && una == k.rcv.nxt
    requires last == Ack(LastAck(k).sn, LastAck(k).ts)
    modifies o`sent, o.buffer
    ensures o.Filled(off', Pack(mtu, p, ProbeItems(k, pr)), before)
  {
    off' := off;
    ghost var p' := p;
    ghost var items: seq<Item> := [];
    if ask {
      var w := Wire(conv, CMD_WASK, 0, wnd, last.ts, last.sn, una, []);
      off' := Write(o, mtu, off', w, Control(k, CMD_WASK, LastAck(k)), p', before);
      p' := PackOne(mtu, p', Put(Control(k, CMD_WASK, LastAck(k))));
      items := [Put(Control(k, CMD_WASK, LastAck(k)))];
    }
    assert p' == Pack(mtu, p, items);
    if tell {
      var w := Wire(conv, CMD_WINS, 0, wnd, last.ts, last.sn, una, []);
      off' := Write(o, mtu, off', w, Control(k, CMD_WINS, LastAck(k)), p', before);
      ghost var item := Put(Control(k, CMD_WINS, LastAck(k)));
      assert (items + [item])[..|items|] == items;
      items := items + [item];
    }
    assert items == ProbeItems(k, pr);
  }

  /** Decides whether a segment is sent now and schedules its next resend. */
  method Schedule(g: Segment, current: u32, c: TxContext) returns (g': Segment, kind: Kind)
    requires !g.acked
    ensures kind == SendKind(g, current, c) && g' == Scheduled(g, kind, current, c)
  {
    g', kind := g, Skip;
    if g.xmit == 0 {
      kind := First;
      g' := g.(rto := c.rto, resendts := W(current + c.rto));
    } else if g.fastack >= c.resent && g.fastack != U32_MAX {
      kind := Fast;
      g' := g.(fastack := U32_MAX, rto := c.rto, resendts := W(current + c.rto));
    } else if g.fastack > 0 && g.fastack != U32_MAX && c.newSegs == 0 {
      kind := Early;
      g' := g.(fastack := U32_MAX, rto := c.rto, resendts := W(current + c.rto));
    } else if Diff(current, g.resendts) >= 0 {
      kind := Timeout;
      var rto;
      if c.cfg.nodelay == 0 {
        rto := W(g.rto + c.rto);
      } else {
        rto := W(g.rto + c.rto / 2);
      }
      g' := g.(rto := rto, fastack := 0, resendts := W(current + rto));
    }
  }

  /** The decisions do not depend on the history numbers. */
  lemma SameDecision(g: Segment, current: u32, d: TxContext, c: TxContext)
    requires d == c.(unaId := d.unaId, base := d.base)
    ensures SendKind(g, current, d) == SendKind(g, current, c)
    ensures Scheduled(g, SendKind(g, current, d), current, d) == Scheduled(g, SendKind(g, current, c), current, c)
  {
  }

  /** The segment as it leaves the transmit loop. */
  function Sent(g: Segment, kind: Kind, current: u32, now: u32, c: TxContext): Segment {
    var s := Scheduled(g, kind, current, c);
    if kind == Skip then s else Stamped(s, now, c)
  }

  function ItemsWith(items: seq<Item>, kind: Kind, g: Segment, id: int, c: TxContext): seq<Item> {
    if kind == Skip then items else items + [Put(PushWire(g, id, c))]
  }

  /** One segment of phase 5: scheduled and, when due, stamped and encoded. */
  method TransmitOne(o: Outlet, g: Segment, i: nat, current: u32, off: nat, d: TxContext,
                     ghost c: TxContext, ghost items: seq<Item>, ghost p: Packing, ghost before: seq<seq<byte>>)
      returns (g': Segment, kind: Kind, current': u32, off': nat)
    requires !g.acked && d == c.(unaId := d.unaId, base := d.base)
    requires o.Filled(off, Pack(d.cfg.mtu, p, items), before)
    requires d.cfg.mtu <= o.buffer.Length && OVERHEAD + |g.data| <= o.buffer.Length
    modifies o`sent, o.buffer
    ensures kind == SendKind(g, current, c)
    ensures current' == if kind == Skip then current else Now(c.clock, 3 + i)
    ensures g' == Sent(g, kind, current, current', c)
    ensures o.Filled(off', Pack(d.cfg.mtu, p, ItemsWith(items, kind, g', c.base + i, c)), before)
  {
    current', off' := current, off;
    g', kind := Schedule(g, current, d);
    SameDecision(g, current, d, c);
    if kind != Skip {
      current' := Now(d.clock, 3 + i);
      g' := g'.(xmit := W(g'.xmit + 1), ts := current', wnd := d.wnd, una := d.una);
      off' := WritePush(o, g', off', d, c.base + i, c, items, p, before);
    }
  }

  method WritePush(o: Outlet, g: Segment, off: nat, d: TxContext, ghost id: int, ghost c: TxContext, ghost items: seq<Item>,
                   ghost p: Packing, ghost before: seq<seq<byte>>) returns (off': nat)
    requires d == c.(unaId := d.unaId, base := d.base) && o.Filled(off, Pack(d.cfg.mtu, p, items), before)
    requires d.cfg.mtu <= o.buffer.Length && OVERHEAD + |g.data| <= o.buffer.Length
    modifies o`sent, o.buffer
    ensures o.Filled(off', Pack(d.cfg.mtu, p, items + [Put(PushWire(g, id, c))]), before)
  {
    var w := Wire(d.cfg.conv, CMD_PUSH, g.frg, g.wnd, g.ts, g.sn, g.una, g.data);
    off' := Write(o, d.cfg.mtu, off, w, PushWire(g, id, c), Pack(d.cfg.mtu, p, items), before);
    PackNext(d.cfg.mtu, p, items + [Put(PushWire(g, id, c))], |items|);
    assert (items + [Put(PushWire(g, id, c))])[..|items|] == items;
    assert (items + [Put(PushWire(g, id, c))])[..|items| + 1] == items + [Put(PushWire(g, id, c))];
  }

  lemma TxOneFields(t: Tx, g: Segment, i: nat, c: TxContext)
    requires !g.acked
    ensures var kind := SendKind(g, t.current, c);
            var now := if kind == Skip then t.current else Now(c.clock, 3 + i);
            var g' := Sent(g, kind, t.current, now, c);
            var wait := Diff(g'.resendts, now);
            TxOne(t, g, i, c) ==
              Tx(t.buf + [g'], t.kinds + [kind], ItemsWith(t.items, kind, g', c.base + i, c), now,
                 if kind == Fast || kind == Early then t.change + 1 else t.change,
                 if kind == Timeout then t.lost + 1 else t.lost,
                 if 0 < wait < t.next then wait else t.next,
                 t.dead || (kind != Skip && g'.xmit >= c.cfg.deadLink))
  {
  }

  lemma TxOneAcked(t: Tx, g: Segment, i: nat, c: TxContext)
    requires g.acked
    ensures TxOne(t, g, i, c) == t.(buf := t.buf + [g], kinds := t.kinds + [Skip])
  {
  }

  lemma NoRound(buf: seq<Segment>, c: TxContext, p: Packing, mtu: u32)
    ensures var t := Transmit(buf, 0, c);
            t.buf == [] && t.items == [] && Pack(mtu, p, []) == p && Counts(t, Now(c.clock, 2), 0, 0, c.cfg.interval, false)
  {
  }

  lemma Round(buf: seq<Segment>, i: nat, c: TxContext)
    requires i < |buf|
    ensures |Transmit(buf, i, c).buf| == i && Transmit(buf, i + 1, c) == TxOne(Transmit(buf, i, c), buf[i], i, c)
  {
    hide TxOne;
  }

  lemma UpdateNext(done: seq<Segment>, buf: seq<Segment>, g: Segment)
    requires |done| < |buf|
    ensures (done + buf[|done|..])[|done| := g] == done + [g] + buf[|done| + 1..]
  {
  }

  /** The loop's counters agree with the reference definition. */
  ghost predicate Counts(t: Tx, current: u32, change: nat, lost: nat, next: u32, dead: bool) {
    t.current == current && t.change == change && t.lost == lost && t.next == next && t.dead == dead
  }

  /** One round of phase 5. */
  method TransmitNext(o: Outlet, g: Segment, i: nat, current: u32, off: nat, change: nat, lost: nat, next: u32, dead: bool,
                      d: TxContext, ghost c: TxContext, ghost t: Tx, ghost p: Packing, ghost before: seq<seq<byte>>)
      returns (g': Segment, current': u32, off': nat, change': nat, lost': nat, next': u32, dead': bool)
    requires d == c.(unaId := d.unaId, base := d.base) && Counts(t, current, change, lost, next, dead)
    requires o.Filled(off, Pack(d.cfg.mtu, p, t.items), before)
    requires d.cfg.mtu <= o.buffer.Length && OVERHEAD + |g.data| <= o.buffer.Length
    modifies o`sent, o.buffer
    ensures var t' := TxOne(t, g, i, c);
            && t'.buf == t.buf + [g'] && Counts(t', current', change', lost', next', dead')
            && o.Filled(off', Pack(d.cfg.mtu, p, t'.items), before)
  {
    hide SendKind, Scheduled, Stamped, PushWire, TxOne, Sent, ItemsWith, Pack;
    g', current', off', change', lost', next', dead' := g, current, off, change, lost, next, dead;
    if g.acked {
      TxOneAcked(t, g, i, c);
      return;
    }
    TxOneFields(t, g, i, c);
    var kind;
    g', kind, current', off' := TransmitOne(o, g, i, current, off, d, c, t.items, p, before);
    if kind == Fast || kind == Early {
      change' := change + 1;
    } else if kind == Timeout {
      lost' := lost + 1;
    }
    if kind != Skip && g'.xmit >= d.cfg.deadLink {
      dead' := true;
    }
    var wait := Diff(g'.resendts, current');
    if wait > 0 && wait < next {
      next' := wait;
    }
  }

  /** Phase 5: sends what is new, overtaken or timed out.  `c` carries the history
      numbers besides what `d` holds. */
  method TransmitAll(o: Outlet, buf: seq<Segment>, off: nat, d: TxContext, ghost c: TxContext, ghost p: Packing, ghost before: seq<seq<byte>>)
      returns (buf': seq<Segment>, off': nat, change: nat, lost: nat, next: u32, dead: bool)
    requires o.Filled(off, p, before) && d.cfg.mtu <= o.buffer.Length && d == c.(unaId := d.unaId, base := d.base)
    requires forall i :: 0 <= i < |buf| ==> OVERHEAD + |buf[i].data| <= o.buffer.Length
    modifies o`sent, o.buffer
    ensures var t := Transmit(buf, |buf|, c);
            && buf' == t.buf && change == t.change && lost == t.lost && next == t.next && dead == t.dead
            && o.Filled(off', Pack(d.cfg.mtu, p, t.items), before)
  {
    hide TxOne, Transmit, Pack;
    buf', off', change, lost, next, dead := buf, off, 0, 0, d.cfg.interval, false;
    var current := Now(d.clock, 2);
    ghost var t := Transmit(buf, 0, c);
    NoRound(buf, c, p, d.cfg.mtu);
    var i := 0;
    while i < |buf|
      invariant 0 <= i <= |buf| && t == Transmit(buf, i, c)
      invariant buf' == t.buf + buf[i..]
      invariant Counts(t, current, change, lost, next, dead)
      invariant o.Filled(off', Pack(d.cfg.mtu, p, t.items), before)
    {
      var g;
      g, current, off', change, lost, next, dead :=
        TransmitNext(o, buf[i], i, current, off', change, lost, next, dead, d, c, t, p, before);
      Round(buf, i, c);
      UpdateNext(t.buf, buf, g);
      buf' := buf'[i := g];
      t := TxOne(t, buf[i], i, c);
      i := i + 1;
    }
  }
}
