/** Timeouts, probe intervals and the deadline that flush returns, over whole runs. */
module Timers {
  import opened Serial
  import opened KcpState
  import opened WireFormat
  import opened KcpWindows

  // --------------------------------------------------------- round-trip time

  /** The smoothed round-trip time moves towards the sample and not past it, at most
      an eighth of the way, rounded; the timeout stays within its limits, and is what
      smoothed time, deviation and interval make it. */
  lemma SmoothingStep(k: State, rtt: nat31)
    ensures var t, t' := k.rtt, UpdateAck(k, rtt).rtt;
            && (t.srtt == 0 ==> t'.srtt == rtt)
            && (t.srtt > 0 && rtt >= t.srtt ==> t.srtt <= t'.srtt <= rtt && 8 * (t'.srtt - t.srtt) <= rtt - t.srtt)
            && (t.srtt > 0 && rtt <= t.srtt ==> rtt <= t'.srtt <= t.srtt && 8 * (t.srtt - t'.srtt) <= t.srtt - rtt + 7)
            && Min(k.cfg.minrto, RTO_MAX) <= t'.rto <= RTO_MAX
            && (k.cfg.interval < HALF && Patience(t', k.cfg.interval) < RANGE ==>
                  t'.rto == Clamped(Patience(t', k.cfg.interval), k.cfg.minrto, RTO_MAX))
  {
    EighthOf(rtt - k.rtt.srtt);
    if k.cfg.interval < HALF { TimeoutStep(k, rtt); }
  }

  lemma EighthOf(x: int)
    ensures 8 * (x / 8) <= x < 8 * (x / 8) + 8
  {
  }

  function Distance(a: int, b: int): int { if a <= b then b - a else a - b }

  /** The deviation starts at half the first sample; afterwards it moves towards the
      distance of the sample from the smoothed time by a quarter of what is missing,
      rounded down, or by a thirty-second when the sample is below the smoothed time by
      more than the deviation. */
  lemma DeviationStep(k: State, rtt: nat31)
    ensures var t, t' := k.rtt, UpdateAck(k, rtt).rtt;
            && (t.srtt == 0 ==> 2 * t'.rttvar <= rtt <= 2 * t'.rttvar + 1)
            && (t.srtt > 0 ==>
                  var missing, moved := Distance(rtt, t.srtt) - t.rttvar, t'.rttvar - t.rttvar;
                  && 8 * (t'.srtt - t.srtt) <= rtt - t.srtt <= 8 * (t'.srtt - t.srtt) + 7
                  && (rtt >= t'.srtt - t.rttvar ==> 4 * moved <= missing <= 4 * moved + 3)
                  && (rtt < t'.srtt - t.rttvar ==> 32 * moved <= missing <= 32 * moved + 31))
  {
    hide W;
  }

  /** The timeout before it is clamped, on unbounded numbers. */
  function Patience(t: Timing, interval: u32): int { Max(t.srtt + interval, t.srtt + 4 * t.rttvar) }

  function Clamped(x: int, low: int, high: int): int { Min(Max(low, x), high) }

  lemma TimeoutIs(k: State, rtt: nat31)
    ensures var t' := UpdateAck(k, rtt).rtt;
            t'.rto == Clamped(W(t'.srtt + Max(k.cfg.interval, W(4 * t'.rttvar))), k.cfg.minrto, RTO_MAX)
  {
    hide W;
  }

  lemma OneWrap(x: int)
    requires 0 <= x < 2 * RANGE
    ensures W(x) == if x < RANGE then x else x - RANGE
  {
  }

  /** The timeout is the smoothed time plus four deviations, or plus the interval when
      that is more, clamped to its limits, as long as the 32-bit sum does not wrap. */
  lemma TimeoutStep(k: State, rtt: nat31)
    requires k.cfg.interval < HALF
    ensures var t' := UpdateAck(k, rtt).rtt;
            Patience(t', k.cfg.interval) < RANGE ==> t'.rto == Clamped(Patience(t', k.cfg.interval), k.cfg.minrto, RTO_MAX)
  {
    hide UpdateAck, W;
    var t' := UpdateAck(k, rtt).rtt;
    TimeoutIs(k, rtt);
    if Patience(t', k.cfg.interval) < RANGE {
      OneWrap(4 * t'.rttvar);
      OneWrap(Patience(t', k.cfg.interval));
    }
  }

  /** When the first sample of a round trip is long enough for the sum to wrap, which
      takes more than sixteen days, the timeout is the longest one exactly when what is
      left of the sum still reaches it. */
  lemma FirstTimeoutWraps(k: State, rtt: nat31)
    requires k.rtt.srtt == 0 && k.cfg.minrto < RTO_MAX && k.cfg.interval < HALF
    ensures var t' := UpdateAck(k, rtt).rtt;
            var p := Patience(t', k.cfg.interval);
            p >= RANGE ==> (t'.rto == RTO_MAX <==> p >= RANGE + RTO_MAX)
  {
    hide UpdateAck, W;
    var t' := UpdateAck(k, rtt).rtt;
    TimeoutIs(k, rtt);
    DeviationStep(k, rtt);
    OneWrap(4 * t'.rttvar);
    OneWrap(Patience(t', k.cfg.interval));
  }

  /** A first sample of 1431655766 milliseconds leaves the shortest timeout. */
  lemma TimeoutWraps(conv: u32)
    ensures var k := Fresh(conv); UpdateAck(k, 0x5555_5556).rtt.rto == k.cfg.minrto
  {
  }

  // ------------------------------------------------------------------- probes

  /** The remote window is probed only while it is zero, at intervals that grow from
      500 to 120000 milliseconds and never shrink. */
  lemma ProbeStep(k: State, now: u32)
    requires TimersOk(k)
    ensures var p, p' := k.probe, NextProbe(k, now);
            && p'.tell == p.tell
            && (k.cong.rmtWnd != 0 ==> p'.wait == 0 && p'.ask == p.ask)
            && (k.cong.rmtWnd == 0 ==> PROBE_INIT <= p'.wait <= PROBE_LIMIT && p.wait <= p'.wait)
            && (p'.ask && !p.ask ==> k.cong.rmtWnd == 0 && p.wait != 0 && Diff(now, p.ts) >= 0 && p'.ts == W(now + p'.wait))
  {
  }

  // -------------------------------------------------------------------- runs

  ghost predicate TimersOk(k: State) {
    && RTO_NDL <= k.rtt.rto <= RTO_MAX && (k.cfg.minrto == RTO_NDL || k.cfg.minrto == RTO_MIN)
    && 10 <= k.cfg.interval <= 5000
    && (k.probe.wait == 0 || PROBE_INIT <= k.probe.wait <= PROBE_LIMIT)
  }

  lemma FlushTimers(k: State, full: bool, clock: seq<u32>)
    requires TimersOk(k)
    ensures TimersOk(Flush(k, full, clock).k)
  {
    hide FlushTx, Penalize, Packets, Admit, NextProbe, FlushItems;
    ProbeStep(k, Now(clock, 1));
  }

  /** Nothing but the probe flags of the timers changes while a packet is parsed. */
  lemma {:induction false} AbsorbTimers(k: State, ts: seq<Tagged>, regular: bool)
    ensures var k' := Absorb(k, ts, regular).k;
            k'.rtt == k.rtt && k'.cfg == k.cfg && k'.probe.wait == k.probe.wait && k'.probe.ts == k.probe.ts
  {
    hide SenderAfter, ReceiverAfter, AcksAfter, WantsFlush;
    if ts != [] { AbsorbTimers(k, ts[..|ts|-1], regular); }
  }

  lemma SettleTimers(a: Absorbed, una: u32, regular: bool, now: u32)
    requires TimersOk(a.k)
    ensures TimersOk(Settle(a, una, regular, now))
  {
    hide Grow;
  }

  lemma InputTimers(k: State, ts: seq<Tagged>, code: int, regular: bool, ackNoDelay: bool, clock: seq<u32>)
    requires TimersOk(k)
    ensures TimersOk(Input(k, ts, code, regular, ackNoDelay, clock).k)
  {
    hide Flush, Absorb, Settle;
    AbsorbTimers(k, ts, regular);
    var a := Absorb(k, ts, regular);
    SettleTimers(a, k.snd.una, regular, Now(clock, 0));
    var k' := Settle(a, k.snd.una, regular, Now(clock, 0));
    FlushTimers(k', InputFlush(a.flush, k', ackNoDelay).Full?, clock);
  }

  lemma StepTimers(k: State, op: Op)
    requires TimersOk(k)
    ensures TimersOk(Step(k, op))
  {
    hide Flush, Input, Enqueue, MoveAvailable, PeekSize, MessageEnd;
    match op
    case OpInput(data, ids, regular, ackNoDelay, clock) =>
      var p := Parse(k.cfg.conv, data);
      InputTimers(k, TagAll(p.segs, ids), p.code, regular, ackNoDelay, clock);
    case OpFlush(full, clock) => FlushTimers(k, full, clock);
    case _ =>
  }

  /** In every run, whatever bytes and timestamps arrive, the retransmission timeout
      stays within 30 and 60000 milliseconds and the probe interval within 500 and
      120000, or off. */
  lemma {:induction false} RunsKeepTimers(conv: u32, ks: seq<State>, ops: seq<Op>, n: nat)
    requires IsRun(ks, ops) && ks[0] == Fresh(conv) && n < |ks|
    ensures TimersOk(ks[n])
  {
    hide Step;
    if n > 0 {
      RunsKeepTimers(conv, ks, ops, n - 1);
      StepTimers(ks[n - 1], ops[n - 1]);
    }
  }

  // ------------------------------------------------------ the returned deadline

  /** How long segment i still has, by the clock as the loop reads it there. */
  function Remaining(buf: seq<Segment>, c: TxContext, i: nat): int
    requires i < |buf|
  {
    var t := Transmit(buf, i + 1, c);
    Diff(t.buf[i].resendts, t.current)
  }

  lemma NextAt(buf: seq<Segment>, n: nat, c: TxContext)
    requires n < |buf|
    ensures var t, t' := Transmit(buf, n, c), Transmit(buf, n + 1, c);
            var wait := Remaining(buf, c, n);
            t'.next == if !buf[n].acked && 0 < wait < t.next then wait else t.next
  {
  }

  /** The deadline that flush returns is the earliest one: no later than the interval
      or than any segment in flight that is not yet due, and equal to one of them. */
  lemma {:induction false} DeadlineIsEarliest(buf: seq<Segment>, n: nat, c: TxContext)
    requires n <= |buf|
    ensures var next := Transmit(buf, n, c).next;
            && next <= c.cfg.interval
            && (forall i :: 0 <= i < n && !buf[i].acked && Remaining(buf, c, i) > 0 ==> next <= Remaining(buf, c, i))
            && (next == c.cfg.interval || exists i :: 0 <= i < n && !buf[i].acked && next == Remaining(buf, c, i) > 0)
  {
    hide TxOne, Remaining;
    if n > 0 {
      DeadlineIsEarliest(buf, n - 1, c);
      NextAt(buf, n - 1, c);
    }
  }

  /** The loop leaves nothing due behind: a segment in flight that it does not send
      has time left, or its deadline is exactly half the clock's range away. */
  lemma NothingDueIsLeft(buf: seq<Segment>, c: TxContext, i: nat)
    requires i < |buf| && !buf[i].acked && Transmit(buf, i + 1, c).kinds[i] == Skip
    ensures Transmit(buf, i + 1, c).buf[i] == buf[i] && buf[i].xmit > 0
    ensures Remaining(buf, c, i) > 0 || Remaining(buf, c, i) == -HALF
  {
    var t := Transmit(buf, i, c);
    assert TxOne(t, buf[i], i, c).kinds[i] == SendKind(buf[i], t.current, c);
  }

  /** In every run a flush asks to be called again after at least one millisecond and
      at most five seconds. */
  lemma FlushAgainSoon(conv: u32, ks: seq<State>, ops: seq<Op>, n: nat, full: bool, clock: seq<u32>)
    requires IsRun(ks, ops) && ks[0] == Fresh(conv) && n < |ks|
    ensures 0 < Flush(ks[n], full, clock).next <= ks[n].cfg.interval <= 5000
  {
    hide Step, Remaining, Transmit, TxOne, Packets, Penalize;
    RunsKeepTimers(conv, ks, ops, n);
    var buf := Admit(ks[n].snd, EffectiveWindow(ks[n])).buf;
    DeadlineIsEarliest(buf, |buf|, FlushContext(ks[n], clock));
  }
}
