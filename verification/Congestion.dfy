/** The arithmetic of the congestion window, over whole runs. */
module CongestionControl {
  import opened Facts
  import opened Serial
  import opened KcpState
  import opened WireFormat
  import opened KcpWindows

  const MSS_MAX: int := 1448

  /** `incr`, the window in bytes, stays strictly between cwnd - 1 and cwnd + 1
      segments. */
  ghost predicate Balanced(c: Congestion, mss: int) {
    && c.cwnd * mss - mss < c.incr < c.cwnd * mss + mss
    && c.ssthresh >= THRESH_MIN
  }

  /** A resend threshold small enough for the window it is added to. */
  ghost predicate Modest(cfg: Config) {
    cfg.fastresend <= 0 || (32767 + cfg.fastresend) * cfg.mss < RANGE
  }

  // ----------------------------------------------------- unbounded arithmetic

  function AvoidanceExact(incr: int, mss: pos32): int
    requires 0 <= incr
  {
    var low := if incr < mss then mss else incr;
    low + mss * mss / low + mss / 16
  }

  /** The growth step on unbounded integers: window in segments and in bytes. */
  function GrowExact(cwnd: nat, ssthresh: nat, incr: nat, rmtWnd: nat, mss: pos32): (int, int) {
    if cwnd >= rmtWnd then (cwnd, incr)
    else if cwnd < ssthresh then (cwnd + 1, incr + mss)
    else
      var more := AvoidanceExact(incr, mss);
      var next := if (cwnd + 1) * mss <= more then (more + mss - 1) / mss else cwnd;
      if next > rmtWnd then (rmtWnd, rmtWnd * mss) else (next, more)
  }

  /** Dividing m squared by x. */
  lemma SquareOver(m: int, x: int, q: int)
    requires 0 < m < x && q * x <= m * m
    ensures q < m
  {
    if q >= m {
      MulLe(m, q, x);
      MulStrict(m, x, m);
    }
  }

  lemma SquareOverTwice(m: int, x: int, q: int)
    requires 0 < m && 2 * m <= x && 0 <= q && q * x <= m * m
    ensures 2 * q <= m
  {
    if 2 * q > m {
      MulLe(2 * m, x, q);
      MulStrict(m, 2 * q, m);
    }
  }

  lemma SquareSmall(m: int)
    requires 0 < m <= MSS_MAX
    ensures 0 < m * m <= MSS_MAX * MSS_MAX
  {
    MulLe(m, MSS_MAX, m);
    MulLe(m, MSS_MAX, MSS_MAX);
  }

  lemma WindowSmall(cwnd: int, m: int)
    requires 0 <= cwnd <= 65540 && 0 < m <= MSS_MAX
    ensures 0 <= cwnd * m <= 65540 * MSS_MAX
  {
    MulNonNegative(cwnd, m);
    MulLe(cwnd, 65540, m);
  }

  /** What congestion avoidance adds, seen linearly: `bytes` is cwnd * mss. */
  lemma LessThanTwo(bytes: int, incr: int, mss: int, q: int)
    requires bytes - mss < incr < bytes + mss && 0 <= q < mss && (incr >= bytes ==> 2 * q <= mss)
    ensures incr <= incr + q + mss / 16 < bytes + 2 * mss
  {
  }

  /** Congestion avoidance adds less than two segments. */
  lemma AvoidanceStep(c: Congestion, mss: pos32, q: int)
    requires Balanced(c, mss) && mss <= MSS_MAX && c.ssthresh <= c.cwnd && 0 <= q && q * c.incr <= mss * mss
    ensures mss < c.incr && c.incr <= c.incr + q + mss / 16 < c.cwnd * mss + 2 * mss
  {
    MulLe(2, c.cwnd, mss);
    SquareOver(mss, c.incr, q);
    if c.incr >= c.cwnd * mss { SquareOverTwice(mss, c.incr, q); }
    LessThanTwo(c.cwnd * mss, c.incr, mss, q);
  }

  /** Rounding up to whole segments. */
  lemma RoundUp(x: int, m: int, lo: int, hi: int)
    requires 0 < m && lo * m <= x < hi * m
    ensures var n := (x + m - 1) / m; n * m - m < x <= n * m && lo <= n <= hi
  {
    var n := (x + m - 1) / m;
    assert n * m <= x + m - 1 < n * m + m;
    if n < lo { MulLe(n, lo - 1, m); MulAdd(lo, -1, m); }
    if n > hi { MulLe(hi + 1, n, m); MulAdd(hi, 1, m); }
  }

  lemma AvoidanceIsExact(c: Congestion, mss: pos32)
    requires Balanced(c, mss) && mss <= MSS_MAX && c.ssthresh <= c.cwnd <= WND_MAX
    ensures Avoidance(c.incr, mss) == AvoidanceExact(c.incr, mss)
    ensures c.incr <= AvoidanceExact(c.incr, mss) < c.cwnd * mss + 2 * mss
  {
    SquareSmall(mss);
    Unwrapped(mss * mss);
    MulLe(2, c.cwnd, mss);
    var q := Div(mss * mss, c.incr);
    AvoidanceStep(c, mss, q);
    WindowSmall(c.cwnd, mss);
    Unwrapped(c.incr + q + mss / 16);
  }

  /** No 32-bit operation of congestion avoidance overflows. */
  lemma AvoidedIsExact(c: Congestion, mss: pos32)
    requires Balanced(c, mss) && mss <= MSS_MAX && c.ssthresh <= c.cwnd < WND_MAX
    ensures var more := AvoidanceExact(c.incr, mss);
            var c' := Avoided(c, mss);
            && c'.cwnd == (if (c.cwnd + 1) * mss <= more then (more + mss - 1) / mss else c.cwnd) && c'.incr == more
            && Balanced(c', mss) && c.cwnd <= c'.cwnd <= c.cwnd + 2 && c' == c.(cwnd := c'.cwnd, incr := c'.incr)
  {
    hide W, AvoidanceExact, Avoidance;
    AvoidanceIsExact(c, mss);
    WindowSmall(c.cwnd, mss);
    MulAdd(c.cwnd, 1, mss); MulAdd(c.cwnd, 2, mss);
    Unwrapped(c.cwnd + 1);
    Unwrapped((c.cwnd + 1) * mss);
    var more := AvoidanceExact(c.incr, mss);
    Unwrapped(more + mss - 1);
    if (c.cwnd + 1) * mss <= more { RoundUp(more, mss, c.cwnd + 1, c.cwnd + 2); }
  }

  lemma CapKeeps(c: Congestion, mss: pos32)
    requires Balanced(c, mss) && mss <= MSS_MAX
    ensures Capped(c, mss) == (if c.cwnd > c.rmtWnd then c.(cwnd := c.rmtWnd, incr := W(c.rmtWnd * mss)) else c)
    ensures Balanced(Capped(c, mss), mss) && W(c.rmtWnd * mss) == c.rmtWnd * mss
  {
    WindowSmall(c.rmtWnd, mss);
    Unwrapped(c.rmtWnd * mss);
  }

  /** Slow start adds one segment to both counts. */
  lemma SlowStart(c: Congestion, mss: pos32)
    requires Balanced(c, mss) && mss <= MSS_MAX && c.cwnd < WND_MAX
    ensures var c' := c.(cwnd := W(c.cwnd + 1), incr := W(c.incr + mss));
            c'.cwnd == c.cwnd + 1 && c'.incr == c.incr + mss && Balanced(c', mss)
  {
    WindowSmall(c.cwnd, mss);
    Unwrapped(c.cwnd + 1);
    Unwrapped(c.incr + mss);
    MulAdd(c.cwnd, 1, mss);
  }

  /** The growth step raises cwnd by at most 2, never past the remote window and
      never lowers it, keeps the two counts in balance, and no 32-bit operation in
      it overflows: it computes what unbounded arithmetic computes. */
  lemma GrowthStep(c: Congestion, mss: pos32)
    requires Balanced(c, mss) && mss <= MSS_MAX
    ensures var c' := Grow(c, mss);
            && Balanced(c', mss)
            && c.cwnd <= c'.cwnd <= c.cwnd + 2 && c'.cwnd <= Max(c.cwnd, c.rmtWnd)
            && GrowExact(c.cwnd, c.ssthresh, c.incr, c.rmtWnd, mss) == (c'.cwnd, c'.incr)
  {
    hide W, Avoided, Capped, AvoidanceExact;
    if c.cwnd < c.rmtWnd {
      if c.cwnd < c.ssthresh {
        SlowStart(c, mss);
        CapKeeps(c.(cwnd := W(c.cwnd + 1), incr := W(c.incr + mss)), mss);
      } else {
        AvoidedIsExact(c, mss);
        CapKeeps(Avoided(c, mss), mss);
      }
    }
  }

  // -------------------------------------------------------------- after losses

  /** Adding the resend threshold to half the flight does not overflow. */
  lemma ResentSmall(ssthresh: int, cfg: Config)
    requires THRESH_MIN <= ssthresh <= 32767 && Modest(cfg) && cfg.mss <= MSS_MAX
    ensures var cwnd := W(ssthresh + Resent(cfg)); cwnd >= 1 && W(cwnd * cfg.mss) == cwnd * cfg.mss
    ensures W(ssthresh + Resent(cfg)) == if cfg.fastresend <= 0 then ssthresh - 1 else ssthresh + cfg.fastresend
  {
    if cfg.fastresend > 0 {
      MulLe(1, cfg.mss, 32767 + cfg.fastresend);
      MulLe(ssthresh + cfg.fastresend, 32767 + cfg.fastresend, cfg.mss);
      MulNonNegative(ssthresh + cfg.fastresend, cfg.mss);
      Unwrapped(cfg.fastresend);
      Unwrapped(ssthresh + cfg.fastresend);
      Unwrapped((ssthresh + cfg.fastresend) * cfg.mss);
    } else {
      WindowSmall(ssthresh - 1, cfg.mss);
      Unwrapped((ssthresh - 1) * cfg.mss);
    }
  }

  /** After a flush: half the flight plus the resend threshold, or one segment. */
  lemma PenaltyStep(c: Congestion, inflight: nat, window: u32, cfg: Config, change: nat, lost: nat)
    requires Balanced(c, cfg.mss) && Modest(cfg) && cfg.mss <= MSS_MAX && inflight <= WND_MAX
    ensures var c' := Penalize(c, cfg.mss, inflight, window, Resent(cfg), change, lost);
            && Balanced(c', cfg.mss) && c'.cwnd >= 1
            && (lost > 0 ==> c'.cwnd == 1 && c'.ssthresh == Max(window / 2, THRESH_MIN))
            && (lost == 0 && change > 0 ==>
                  && c'.ssthresh == Max(inflight / 2, THRESH_MIN)
                  && c'.cwnd == c'.ssthresh + if cfg.fastresend <= 0 then -1 else cfg.fastresend)
            && (lost == 0 && change == 0 ==> c'.ssthresh == c.ssthresh && c'.cwnd == Max(c.cwnd, 1))
  {
    ResentSmall(Max(inflight / 2, THRESH_MIN), cfg);
  }

  // -------------------------------------------------------------------- runs

  ghost predicate Steady(k: State) {
    Good(k) && Balanced(k.cong, k.cfg.mss) && k.cfg.mss <= MSS_MAX
  }

  lemma InFlight(s: Sender)
    requires SndInv(s)
    ensures W(s.nxt - s.una) == |s.buf| <= WND_MAX
  {
    WAdd(Base(s), |s.buf|);
  }

  lemma FlushBalanced(k: State, full: bool, clock: seq<u32>)
    requires Steady(k) && Modest(k.cfg)
    ensures Balanced(Flush(k, full, clock).k.cong, k.cfg.mss)
  {
    hide Flush, Admit, FlushTx, EffectiveWindow, Penalize, Balanced, Modest, SndInv, RcvInv, Resent, W;
    var w := EffectiveWindow(k);
    var s, tx := Admit(k.snd, w), FlushTx(k, full, clock);
    AdmitKeeps(k.snd, w);
    InFlight(s);
    FlushPenalty(k, full, clock);
    PenaltyStep(k.cong, |s.buf|, w, k.cfg, tx.change, tx.lost);
  }

  lemma FlushPenalty(k: State, full: bool, clock: seq<u32>)
    ensures var s, tx := Admit(k.snd, EffectiveWindow(k)), FlushTx(k, full, clock);
            Flush(k, full, clock).k.cong ==
              if k.cfg.nocwnd then k.cong
              else Penalize(k.cong, k.cfg.mss, W(s.nxt - s.una), EffectiveWindow(k), Resent(k.cfg), tx.change, tx.lost)
  {
    hide Admit, FlushTx, Penalize, Packets;
  }

  lemma {:induction false} AbsorbBalanced(k: State, ts: seq<Tagged>, regular: bool)
    requires Balanced(k.cong, k.cfg.mss)
    ensures Balanced(Absorb(k, ts, regular).k.cong, k.cfg.mss)
  {
    if ts != [] { AbsorbBalanced(k, ts[..|ts|-1], regular); }
  }

  lemma SettleBalanced(a: Absorbed, una: u32, regular: bool, now: u32)
    requires Steady(a.k)
    ensures Steady(Settle(a, una, regular, now)) && Settle(a, una, regular, now).cfg == a.k.cfg
  {
    GrowthStep(a.k.cong, a.k.cfg.mss);
  }

  lemma InputBalanced(k: State, ts: seq<Tagged>, code: int, regular: bool, ackNoDelay: bool, clock: seq<u32>)
    requires Steady(k) && Modest(k.cfg)
    ensures Balanced(Input(k, ts, code, regular, ackNoDelay, clock).k.cong, k.cfg.mss)
  {
    var a := Absorb(k, ts, regular);
    AbsorbKeeps(k, ts, regular);
    AbsorbKeepsConfig(k, ts, regular);
    AbsorbBalanced(k, ts, regular);
    SettleBalanced(a, k.snd.una, regular, Now(clock, 0));
    var k' := Settle(a, k.snd.una, regular, Now(clock, 0));
    FlushBalanced(k', InputFlush(a.flush, k', ackNoDelay).Full?, clock);
  }

  lemma StepBalanced(k: State, op: Op)
    requires Steady(k) && Modest(k.cfg) && !op.OpSetMtu?
    ensures Steady(Step(k, op)) && Step(k, op).cfg.mss == k.cfg.mss
  {
    StepKeeps(k, op);
    match op
    case OpInput(data, ids, regular, ackNoDelay, clock) =>
      var p := Parse(k.cfg.conv, data);
      InputBalanced(k, TagAll(p.segs, ids), p.code, regular, ackNoDelay, clock);
      InputKeepsConfig(k, TagAll(p.segs, ids), p.code, regular, ackNoDelay, clock);
    case OpFlush(full, clock) => FlushBalanced(k, full, clock);
    case _ =>
  }

  /** Congestion arithmetic: with the mss fixed before traffic starts and modest
      resend thresholds, every run keeps the window in segments and the window in
      bytes within one segment of each other and the threshold at least 2,
      whatever bytes arrive. */
  lemma {:induction false} RunsStayBalanced(conv: u32, mtu: u32, ks: seq<State>, ops: seq<Op>, n: nat)
    requires OVERHEAD < mtu <= MSS_MAX + OVERHEAD && IsRun(ks, ops) && ks[0] == SetMtu(Fresh(conv), mtu) && n < |ks|
    requires forall i :: 0 <= i < |ops| ==> !ops[i].OpSetMtu? && Modest(ks[i].cfg)
    ensures Steady(ks[n]) && ks[n].cfg.mss == mtu - OVERHEAD
    ensures var c, mss := ks[n].cong, mtu - OVERHEAD;
            (c.cwnd - 1) * mss < c.incr < (c.cwnd + 1) * mss && c.ssthresh >= THRESH_MIN
  {
    hide Step;
    if n > 0 {
      RunsStayBalanced(conv, mtu, ks, ops, n - 1);
      StepBalanced(ks[n-1], ops[n-1]);
      assert ks[n] == Step(ks[n-1], ops[n-1]);
    }
    MulAdd(ks[n].cong.cwnd, 1, mtu - OVERHEAD);
    MulAdd(ks[n].cong.cwnd, -1, mtu - OVERHEAD);
  }
}
