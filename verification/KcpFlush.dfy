/** The phases of flush put together: what goes out, and what it leaves behind. */
module KcpFlush {
  import opened Serial
  import opened KcpState
  import opened WireFormat
  import opened KcpWindows
  import opened KcpLoops
  import opened KcpWriter
  import opened OutputBuffer

  /** Phase 2: the probe timer, running only while the remote window is zero. */
  method ProbeTimer(probe: Probe, rmtWnd: u16, now: u32, ghost k: State) returns (p: Probe)
    requires k.probe == probe && k.cong.rmtWnd == rmtWnd
    ensures p == NextProbe(k, now)
  {
    p := probe;
    if rmtWnd == 0 {
      if p.wait == 0 {
        p := p.(wait := PROBE_INIT, ts := W(now + PROBE_INIT));
      } else if Diff(now, p.ts) >= 0 {
        if p.wait < PROBE_INIT {
          p := p.(wait := PROBE_INIT);
        }
        var wait := W(p.wait + p.wait / 2);
        if wait > PROBE_LIMIT {
          wait := PROBE_LIMIT;
        }
        p := p.(wait := wait, ts := W(now + wait), ask := true);
      }
    } else {
      p := p.(ts := 0, wait := 0);
    }
  }

  /** Phases 1 to 3: acknowledgements and window probes. */
  method WriteControl(o: Outlet, mtu: u32, conv: u32, wnd: u16, una: u32, acks: seq<Ack>, pr: Probe,
                      ghost k: State, ghost before: seq<seq<byte>>)
      returns (off: nat)
    requires o.sent == before && OVERHEAD <= mtu <= o.buffer.Length
    requires mtu == k.cfg.mtu && conv == k.cfg.conv && wnd == WndUnused(k.rcv) && una == k.rcv.nxt && Zipped(acks, k.acks)
    modifies o`sent, o.buffer
    ensures o.Filled(off, Pack(mtu, Packing([], []), AckItems(k) + ProbeItems(k, pr)), before)
  {
    assert EncodePackets([]) == [] && before + [] == before;
    var last;
    off, last := WriteAcks(o, mtu, conv, wnd, una, acks, k, before);
    off := WriteProbes(o, mtu, conv, wnd, una, last, pr.ask, pr.tell, off, k, pr, Pack(mtu, Packing([], []), AckItems(k)), before);
    PackAppend(mtu, Packing([], []), AckItems(k), ProbeItems(k, pr));
  }

  /** Phase 5 and the final hand-over. */
  method WriteData(o: Outlet, buf: seq<Segment>, off: nat, full: bool, d: TxContext,
                   ghost k: State, ghost items: seq<Item>, ghost before: seq<seq<byte>>)
      returns (buf': seq<Segment>, change: nat, lost: nat, next: u32, dead: bool)
    requires o.Filled(off, Pack(k.cfg.mtu, Packing([], []), items), before) && k.cfg.mtu <= o.buffer.Length
    requires d == FlushContext(k, d.clock).(unaId := d.unaId, base := d.base) && buf == Admit(k.snd, EffectiveWindow(k)).buf
    requires forall i :: 0 <= i < |buf| ==> OVERHEAD + |buf[i].data| <= o.buffer.Length
    modifies o`sent, o.buffer
    ensures var t := FlushTx(k, full, d.clock);
            && buf' == t.buf && change == t.change && lost == t.lost && next == t.next && dead == t.dead
            && o.sent == before + EncodePackets(Packets(k.cfg.mtu, items + t.items))
  {
    ghost var p := Pack(k.cfg.mtu, Packing([], []), items);
    ghost var more := FlushTx(k, full, d.clock).items;
    var off' := off;
    if full {
      buf', off', change, lost, next, dead := TransmitAll(o, buf, off, d, FlushContext(k, d.clock), p, before);
    } else {
      buf', change, lost, next, dead := buf, 0, 0, d.cfg.interval, false;
      assert more == [] && Pack(k.cfg.mtu, p, more) == p;
    }
    PackAppend(k.cfg.mtu, Packing([], []), items, more);
    o.Finish(off', Pack(k.cfg.mtu, Packing([], []), items + more), before);
  }

  /** Phase 6: the congestion window after losses. */
  method AdjustWindow(c: Congestion, mss: u32, inflight: u32, window: u32, resent: u32, change: nat, lost: nat) returns (c': Congestion)
    ensures c' == Penalize(c, mss, inflight, window, resent, change, lost)
  {
    c' := c;
    if change > 0 {
      c' := c'.(ssthresh := Max(inflight / 2, THRESH_MIN));
      c' := c'.(cwnd := W(c'.ssthresh + resent));
      c' := c'.(incr := W(c'.cwnd * mss));
    }
    if lost > 0 {
      c' := c'.(ssthresh := Max(window / 2, THRESH_MIN), cwnd := 1, incr := mss);
    }
    if c'.cwnd < 1 {
      c' := c'.(cwnd := 1, incr := mss);
    }
  }

  ghost predicate Reflects(k: State, cfg: Config, buf: seq<Segment>, queue: seq<Segment>, una: u32, nxt: u32, wnd: u16,
                           rcvNxt: u32, acks: seq<Ack>, cong: Congestion, rto: u32, probe: Probe) {
    && k.cfg == cfg && k.snd.buf == buf && k.snd.queue == queue && k.snd.una == una && k.snd.nxt == nxt
    && WndUnused(k.rcv) == wnd && k.rcv.nxt == rcvNxt && Zipped(acks, k.acks)
    && k.cong == cong && k.rtt.rto == rto && k.probe == probe
  }

  /** Phase 4, and what phase 5 will read. */
  method OpenWindow(cfg: Config, buf: seq<Segment>, queue: seq<Segment>, una: u32, nxt: u32, wnd: u16, rcvNxt: u32,
                    cong: Congestion, rto: u32, clock: seq<u32>, ghost k: State)
      returns (buf': seq<Segment>, queue': seq<Segment>, nxt': u32, window: u32, d: TxContext)
    requires k.cfg == cfg && k.snd.buf == buf && k.snd.queue == queue && k.snd.una == una && k.snd.nxt == nxt
    requires WndUnused(k.rcv) == wnd && k.rcv.nxt == rcvNxt && k.cong == cong && k.rtt.rto == rto && SndInv(k.snd)
    ensures window == EffectiveWindow(k)
    ensures var s := Admit(k.snd, window); buf' == s.buf && queue' == s.queue && nxt' == s.nxt
    ensures d == FlushContext(k, clock).(unaId := 0, base := 0)
  {
    window := Min(cfg.sndWnd, cong.rmtWnd);
    if !cfg.nocwnd {
      window := Min(cong.cwnd, window);
    }
    var count;
    buf', queue', nxt', count := AdmitQueued(buf, queue, una, nxt, window, k.snd);
    var resent := W(cfg.fastresend);
    if cfg.fastresend <= 0 {
      resent := U32_MAX;
    }
    d := TxContext(cfg, rto, wnd, rcvNxt, 0, 0, resent, count, clock);
  }

  lemma FlushFields(k: State, full: bool, clock: seq<u32>)
    ensures var f, w, tx, p := Flush(k, full, clock), EffectiveWindow(k), FlushTx(k, full, clock), NextProbe(k, Now(clock, 1));
            var s := Admit(k.snd, w);
            && s.una == k.snd.una
            && f.k == k.(snd := Sender(s.una, s.nxt, tx.buf, s.queue, s.total), acks := [], dead := k.dead || tx.dead,
                         probe := p.(ask := false, tell := false),
                         cong := if k.cfg.nocwnd then k.cong
                                 else Penalize(k.cong, k.cfg.mss, W(s.nxt - s.una), w, Resent(k.cfg), tx.change, tx.lost))
            && f.next == tx.next && f.packets == Packets(k.cfg.mtu, AckItems(k) + ProbeItems(k, p) + tx.items)
  {
  }

  method Phases(o: Outlet, cfg: Config, buf: seq<Segment>, queue: seq<Segment>, una: u32, nxt: u32, wnd: u16, rcvNxt: u32,
                acks: seq<Ack>, cong: Congestion, rto: u32, probe: Probe, full: bool, clock: seq<u32>, ghost k: State)
      returns (buf': seq<Segment>, queue': seq<Segment>, nxt': u32, cong': Congestion, probe': Probe, dead: bool, next: u32)
    requires Reflects(k, cfg, buf, queue, una, nxt, wnd, rcvNxt, acks, cong, rto, probe)
    requires SndInv(k.snd) && OVERHEAD <= cfg.mtu <= o.buffer.Length
    requires var b := Admit(k.snd, EffectiveWindow(k)).buf;
             forall i :: 0 <= i < |b| ==> OVERHEAD + |b[i].data| <= o.buffer.Length
    modifies o`sent, o.buffer
    ensures var f := Flush(k, full, clock);
            && f.k == k.(snd := Sender(una, nxt', buf', queue', f.k.snd.total), cong := cong', acks := [],
                         dead := k.dead || dead, probe := probe')
            && next == f.next && o.sent == old(o.sent) + EncodePackets(f.packets)
  {
    hide Flush, Penalize, Pack, Packets, AckItems, ProbeItems;
    probe' := ProbeTimer(probe, cong.rmtWnd, Now(clock, 1), k);
    ghost var items := AckItems(k) + ProbeItems(k, probe');
    var off := WriteControl(o, cfg.mtu, cfg.conv, wnd, rcvNxt, acks, probe', k, o.sent);
    probe' := probe'.(ask := false, tell := false);
    var window, d;
    buf', queue', nxt', window, d := OpenWindow(cfg, buf, queue, una, nxt, wnd, rcvNxt, cong, rto, clock, k);
    var change, lost;
    buf', change, lost, next, dead := WriteData(o, buf', off, full, d, k, items, old(o.sent));
    cong' := cong;
    if !cfg.nocwnd {
      cong' := AdjustWindow(cong, cfg.mss, W(nxt' - una), window, d.resent, change, lost);
    }
    FlushFields(k, full, clock);
  }

  // ------------------------------------------- the end of Input, before a flush

  /** update_ack: a right shift divides rounding down. */
  method UpdateRtt(t: Timing, interval: u32, minrto: u32, rtt: nat31, ghost k: State) returns (t': Timing)
    requires k.rtt == t && k.cfg.interval == interval && k.cfg.minrto == minrto
    ensures k.(rtt := t') == UpdateAck(k, rtt)
  {
    hide W;
    t' := t;
    if t.srtt == 0 {
      t' := t'.(srtt := rtt, rttvar := rtt / 2);
    } else {
      var delta := rtt - t.srtt;
      t' := t'.(srtt := t.srtt + delta / 8);
      if delta < 0 {
        delta := -delta;
      }
      if rtt < t'.srtt - t'.rttvar {
        t' := t'.(rttvar := t'.rttvar + (delta - t'.rttvar) / 32);
      } else {
        t' := t'.(rttvar := t'.rttvar + (delta - t'.rttvar) / 4);
      }
    }
    var rto := W(t'.srtt + Max(interval, W(4 * t'.rttvar)));
    t' := t'.(rto := Min(Max(minrto, rto), RTO_MAX));
  }

  method GrowWindow(c: Congestion, mss: pos32) returns (c': Congestion)
    ensures c' == Grow(c, mss)
  {
    hide W, Div;
    c' := c;
    if c.cwnd < c.rmtWnd {
      if c.cwnd < c.ssthresh {
        c' := c'.(cwnd := W(c.cwnd + 1), incr := W(c.incr + mss));
      } else {
        if c'.incr < mss {
          c' := c'.(incr := mss);
        }
        c' := c'.(incr := W(c'.incr + Div(W(mss * mss), c'.incr) + Div(mss, 16)));
        if W(W(c.cwnd + 1) * mss) <= c'.incr {
          c' := c'.(cwnd := Div(W(c'.incr + mss - 1), mss));
        }
      }
      if c'.cwnd > c'.rmtWnd {
        c' := c'.(cwnd := c'.rmtWnd, incr := W(c'.rmtWnd * mss));
      }
    }
  }
}
