/** What the calls that change settings take, keep within limits and leave alone. */
module Settings {
  import opened Serial
  import opened KcpState
  import opened Retransmission

  /** NoDelay takes every argument that is not negative and nothing else changes: the
      interval is kept within 10 and 5000 milliseconds, and a nodelay other than 0 lowers
      the shortest timeout from 100 to 30. */
  lemma NoDelayTakes(k: State, nodelay: int, interval: int, resend: int, nc: int)
    requires nodelay < HALF && interval < HALF && resend < HALF && nc < HALF
    ensures var k' := NoDelay(k, nodelay, interval, resend, nc);
            var c, c' := k.cfg, k'.cfg;
            && k' == k.(cfg := c.(nodelay := c'.nodelay, minrto := c'.minrto, interval := c'.interval, fastresend := c'.fastresend,
                                  nocwnd := c'.nocwnd))
            && (nodelay < 0 ==> c'.nodelay == c.nodelay && c'.minrto == c.minrto)
            && (nodelay >= 0 ==> c'.nodelay == nodelay && c'.minrto == if nodelay == 0 then 100 else 30)
            && (interval < 0 ==> c'.interval == c.interval)
            && (interval >= 0 ==> 10 <= c'.interval <= 5000 && (10 <= interval <= 5000 ==> c'.interval == interval))
            && (0 <= interval < 10 ==> c'.interval == 10) && (interval > 5000 ==> c'.interval == 5000)
            && (resend < 0 ==> c'.fastresend == c.fastresend) && (resend >= 0 ==> c'.fastresend == resend)
            && (nc < 0 ==> c'.nocwnd == c.nocwnd) && (nc >= 0 ==> (c'.nocwnd <==> nc != 0))
  {
    hide W, Diff;
    if resend >= 0 { Unwrapped(resend); Unwrapped(0); DiffIsUnboundedDifference(resend, 0); }
    if nodelay >= 0 { Unwrapped(nodelay); }
    if nc >= 0 { Unwrapped(nc); }
  }

  /** WndSize takes each window that is positive, and nothing else changes. */
  lemma WndSizeTakes(k: State, sndwnd: int, rcvwnd: int)
    requires sndwnd < HALF && rcvwnd < HALF
    ensures var k' := WndSize(k, sndwnd, rcvwnd);
            && k' == k.(cfg := k.cfg.(sndWnd := k'.cfg.sndWnd), rcv := k.rcv.(wnd := k'.rcv.wnd))
            && k'.cfg.sndWnd == (if sndwnd > 0 then sndwnd else k.cfg.sndWnd)
            && k'.rcv.wnd == (if rcvwnd > 0 then rcvwnd else k.rcv.wnd)
  {
  }

  /** After ResetRTO every segment in flight that is not acknowledged is sent by the next
      full flush at the same time, however long it still had to wait. */
  lemma ResetIsSent(k: State, now: u32, clock: seq<u32>, i: nat)
    requires k.cfg.fastresend < HALF && i < |k.snd.buf| && !k.snd.buf[i].acked && Same(clock, now, 3 + i)
    ensures var k' := ResetRTO(k, now);
            var f := Flush(k', true, clock);
            i < |f.k.snd.buf| && OnWire(k', f.packets, i) == 1
  {
    hide Flush, OnWire;
    var k' := ResetRTO(k, now);
    Longer(k', clock);
    var t := FlushDecides(k', clock, i);
    assert t == now by { ReadsSame(k', Flush(k', true, clock).packets, clock, now, i, t); }
    Serial.DiffIsUnboundedDifference(now, now);
  }

  /** The first n readings of the clock are the same. */
  ghost predicate Same(clock: seq<u32>, now: u32, n: nat) { forall i :: 0 <= i < n ==> Now(clock, i) == now }

  lemma ReadsSame(k: State, packets: seq<seq<Tagged>>, clock: seq<u32>, now: u32, i: nat, t: u32)
    requires Same(clock, now, 3 + i) && Reads(k, packets, clock, i, t)
    ensures t == now
  {
    hide Went;
  }

  lemma Longer(k: State, clock: seq<u32>)
    ensures |k.snd.buf| <= |Flush(k, true, clock).k.snd.buf|
  {
    hide Flush;
    FlushLoop(k, clock);
  }
}
