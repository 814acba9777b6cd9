/** Which segments a flush sends, and what becomes of them: stated on the fields of the
    segments before, the fields afterwards and the packets on the wire. */
module Retransmission {
  import opened Serial
  import opened KcpState
  import opened WireFormat
  import opened KcpWindows
  import opened Accounting
  import CongestionControl
  import Timers

  // ------------------------------------------------------------- what is observed

  /** The segments that phase 5 looks at: the buffer, then the queue as it is numbered. */
  ghost function Candidate(k: State, i: nat): Segment
    requires i < |k.snd.buf| + |k.snd.queue|
  {
    if i < |k.snd.buf| then k.snd.buf[i] else k.snd.queue[i - |k.snd.buf|].(sn := W(k.snd.total + (i - |k.snd.buf|)))
  }

  /** How often the segment at position i is in the packets of a flush. */
  ghost function OnWire(k: State, packets: seq<seq<Tagged>>, i: nat): nat { Pushes(Flatten(packets), Base(k.snd) + i) }

  /** Position i was on the wire. */
  ghost predicate Went(k: State, packets: seq<seq<Tagged>>, i: nat) { OnWire(k, packets, i) > 0 }

  /** The clock as the loop knows it at position i: it was read before the loop and is
      read again for every segment sent. */
  ghost predicate Reads(k: State, packets: seq<seq<Tagged>>, clock: seq<u32>, i: nat, now: u32) {
    || (now == Now(clock, 2) && forall j :: 0 <= j < i ==> !Went(k, packets, j))
    || (exists j :: 0 <= j < i && Went(k, packets, j) && now == Now(clock, 3 + j) && forall m :: j < m < i ==> !Went(k, packets, m))
  }

  /** Overtaken often enough to be sent again without waiting: as often as the setting
      says or, when nothing new goes out, at all; and not already sent for that reason. */
  ghost predicate Overdue(g: Segment, fastresend: int, news: bool) {
    !g.acked && g.xmit > 0 && 0 < g.fastack < U32_MAX && (0 < fastresend <= g.fastack || !news)
  }

  /** Sent before, not acknowledged, and not overdue: it waits for its time. */
  ghost predicate Waits(g: Segment, fastresend: int, news: bool) {
    !g.acked && g.xmit > 0 && !Overdue(g, fastresend, news)
  }

  /** Sent with a new timeout: one send more, nothing else but the bookkeeping changed. */
  ghost predicate SentAgain(g: Segment, g': Segment, rto: u32, now: u32, stamp: u32, fastack: u32) {
    && g'.rto == rto && g'.resendts == W(now + rto) && g'.fastack == fastack && g'.xmit == W(g.xmit + 1) && g'.ts == stamp
    && g'.sn == g.sn && g'.frg == g.frg && g'.data == g.data && !g'.acked
  }

  /** The timeout after one more loss. */
  function BackedOff(rto: u32, rx: u32, nodelay: u32): u32 { W(rto + if nodelay == 0 then rx else rx / 2) }

  /** What a flush does with one segment. */
  ghost predicate Decided(g: Segment, g': Segment, n: nat, cfg: Config, rx: u32, news: bool, now: u32, stamp: u32) {
    && (g.acked ==> n == 0 && g' == g)
    && (!g.acked && g.xmit == 0 ==> n == 1 && SentAgain(g, g', rx, now, stamp, g.fastack))
    && (Overdue(g, cfg.fastresend, news) ==> n == 1 && SentAgain(g, g', rx, now, stamp, U32_MAX))
    && (Waits(g, cfg.fastresend, news) && Diff(now, g.resendts) >= 0 ==>
          n == 1 && SentAgain(g, g', BackedOff(g.rto, rx, cfg.nodelay), now, stamp, 0))
    && (Waits(g, cfg.fastresend, news) && Diff(now, g.resendts) < 0 ==> n == 0 && g' == g)
  }

  // ----------------------------------------------------------------- the loop

  lemma Threshold(cfg: Config, fastack: u32)
    requires cfg.fastresend < HALF && fastack < U32_MAX
    ensures fastack >= Resent(cfg) <==> 0 < cfg.fastresend <= fastack
  {
  }

  lemma KindMeans(g: Segment, current: u32, c: TxContext)
    requires c.resent == Resent(c.cfg) && c.cfg.fastresend < HALF
    ensures var kind, news := SendKind(g, current, c), c.newSegs > 0;
            && (g.acked ==> kind == Skip)
            && (!g.acked && g.xmit == 0 <==> kind == First)
            && (Overdue(g, c.cfg.fastresend, news) <==> kind == Fast || kind == Early)
            && (Waits(g, c.cfg.fastresend, news) && Diff(current, g.resendts) >= 0 <==> kind == Timeout)
            && (Waits(g, c.cfg.fastresend, news) && Diff(current, g.resendts) < 0 ==> kind == Skip)
  {
    hide Resent, Diff;
    if g.fastack < U32_MAX { Threshold(c.cfg, g.fastack); }
  }

  /** One round of the loop. */
  lemma Decides(t: Tx, g: Segment, i: nat, c: TxContext)
    requires c.resent == Resent(c.cfg) && c.cfg.fastresend < HALF
    ensures var t' := TxOne(t, g, i, c);
            && t'.buf == t.buf + [t'.buf[|t.buf|]] && t'.kinds == t.kinds + [t'.kinds[|t.kinds|]]
            && t'.kinds[|t.kinds|] == SendKind(g, t.current, c)
            && Decided(g, t'.buf[|t.buf|], if t'.kinds[|t.kinds|] == Skip then 0 else 1, c.cfg, c.rto, c.newSegs > 0,
                       t.current, Now(c.clock, 3 + i))
            && t'.current == if t'.kinds[|t.kinds|] == Skip then t.current else Now(c.clock, 3 + i)
  {
    hide SendKind, Overdue, Waits, Resent, Diff, W;
    KindMeans(g, t.current, c);
  }

  ghost predicate InLoop(c: TxContext) { c.resent == Resent(c.cfg) && c.cfg.fastresend < HALF }

  /** What the loop has decided about position i it never changes. */
  lemma {:induction false} Stays(buf: seq<Segment>, n: nat, c: TxContext, i: nat)
    requires i < n <= |buf|
    ensures var t, t1 := Transmit(buf, n, c), Transmit(buf, i + 1, c); t.buf[i] == t1.buf[i] && t.kinds[i] == t1.kinds[i]
  {
    hide TxOne;
    if i < n - 1 {
      Stays(buf, n - 1, c, i);
      TxOneExtends(Transmit(buf, n - 1, c), buf[n - 1], n - 1, c);
      assert TxOne(Transmit(buf, n - 1, c), buf[n - 1], n - 1, c).buf[..n - 1][i] == Transmit(buf, n - 1, c).buf[i];
      assert TxOne(Transmit(buf, n - 1, c), buf[n - 1], n - 1, c).kinds[..n - 1][i] == Transmit(buf, n - 1, c).kinds[i];
    }
  }

  lemma DecidesAt(buf: seq<Segment>, c: TxContext, i: nat)
    requires i < |buf| && InLoop(c)
    ensures var t, t' := Transmit(buf, |buf|, c), Transmit(buf, i, c);
            && t.kinds[i] == SendKind(buf[i], t'.current, c)
            && Decided(buf[i], t.buf[i], if t.kinds[i] == Skip then 0 else 1, c.cfg, c.rto, c.newSegs > 0, t'.current, Now(c.clock, 3 + i))
  {
    hide Decided, SendKind, TxOne;
    Stays(buf, |buf|, c, i);
    Decides(Transmit(buf, i, c), buf[i], i, c);
  }

  /** The clock in terms of the positions sent. */
  ghost predicate ReadBy(kinds: seq<Kind>, clock: seq<u32>, i: nat, now: u32)
    requires i <= |kinds|
  {
    || (now == Now(clock, 2) && forall j :: 0 <= j < i ==> kinds[j] == Skip)
    || (exists j :: 0 <= j < i && kinds[j] != Skip && now == Now(clock, 3 + j) && forall m :: j < m < i ==> kinds[m] == Skip)
  }

  lemma ReadNext(kinds: seq<Kind>, clock: seq<u32>, i: nat, now: u32)
    requires i < |kinds| && ReadBy(kinds, clock, i, now)
    ensures ReadBy(kinds, clock, i + 1, if kinds[i] == Skip then now else Now(clock, 3 + i))
  {
  }

  lemma {:induction false} LoopReads(buf: seq<Segment>, c: TxContext, i: nat)
    requires i <= |buf| && InLoop(c)
    ensures ReadBy(Transmit(buf, |buf|, c).kinds, c.clock, i, Transmit(buf, i, c).current)
  {
    hide TxOne, ReadBy, Decided;
    if i == 0 {
      NothingRead(buf, c);
    } else {
      LoopReads(buf, c, i - 1);
      Stays(buf, |buf|, c, i - 1);
      Decides(Transmit(buf, i - 1, c), buf[i - 1], i - 1, c);
      ReadNext(Transmit(buf, |buf|, c).kinds, c.clock, i - 1, Transmit(buf, i - 1, c).current);
    }
  }

  lemma NothingRead(buf: seq<Segment>, c: TxContext)
    ensures ReadBy(Transmit(buf, |buf|, c).kinds, c.clock, 0, Transmit(buf, 0, c).current)
  {
  }

  // ------------------------------------------------------------------ a flush

  lemma CandidateAt(k: State, i: nat)
    requires i < |Admit(k.snd, EffectiveWindow(k)).buf|
    ensures |Admit(k.snd, EffectiveWindow(k)).buf| <= |k.snd.buf| + |k.snd.queue|
    ensures Admit(k.snd, EffectiveWindow(k)).buf[i] == Candidate(k, i)
  {
    hide W, EffectiveWindow;
  }

  lemma FlushLoop(k: State, clock: seq<u32>)
    ensures var buf := Admit(k.snd, EffectiveWindow(k)).buf;
            var f, t := Flush(k, true, clock), Transmit(buf, |buf|, FlushContext(k, clock));
            f.k.snd.buf == t.buf && f.kinds == t.kinds && f.next == t.next && f.k.dead == (k.dead || t.dead) && |t.buf| == |buf|
  {
    hide Packets, Penalize, Transmit, Admit, NextProbe;
  }

  lemma LoopContext(k: State, clock: seq<u32>)
    ensures var c := FlushContext(k, clock);
            && c.resent == Resent(k.cfg) && c.cfg == k.cfg && c.rto == k.rtt.rto && c.clock == clock
            && (c.newSegs > 0 <==> |Admit(k.snd, EffectiveWindow(k)).buf| > |k.snd.buf|)
  {
    hide EffectiveWindow;
  }

  lemma WentIff(k: State, clock: seq<u32>, i: nat)
    requires i < |Flush(k, true, clock).kinds|
    ensures OnWire(k, Flush(k, true, clock).packets, i) == if Flush(k, true, clock).kinds[i] == Skip then 0 else 1
  {
    hide Flush, Pushes, Flatten;
    FlushPushes(k, true, clock, Base(k.snd) + i);
  }

  lemma ReadsIff(k: State, clock: seq<u32>, i: nat, now: u32)
    requires i <= |Flush(k, true, clock).kinds| && ReadBy(Flush(k, true, clock).kinds, clock, i, now)
    ensures Reads(k, Flush(k, true, clock).packets, clock, i, now)
  {
    hide Flush, OnWire;
    var f := Flush(k, true, clock);
    forall j | 0 <= j < i ensures Went(k, f.packets, j) <==> f.kinds[j] != Skip { WentIff(k, clock, j); }
  }

  /** For every state, every full flush and every position, by the clock as it was read
      there: acknowledged segments are left alone; new ones are sent; those overtaken
      often enough are sent at once and marked, so that they are not overtaken again;
      all others are sent, with a longer timeout, exactly when their time has come. */
  lemma FlushDecides(k: State, clock: seq<u32>, i: nat) returns (now: u32)
    requires k.cfg.fastresend < HALF && i < |Flush(k, true, clock).k.snd.buf|
    ensures var f := Flush(k, true, clock);
            && i < |k.snd.buf| + |k.snd.queue| && Reads(k, f.packets, clock, i, now)
            && Decided(Candidate(k, i), f.k.snd.buf[i], OnWire(k, f.packets, i), k.cfg, k.rtt.rto, |f.k.snd.buf| > |k.snd.buf|,
                       now, Now(clock, 3 + i))
  {
    hide Flush, Transmit, Admit, EffectiveWindow, FlushContext, Decided, Reads, OnWire, Candidate, SendKind, ReadBy;
    var buf, c := Admit(k.snd, EffectiveWindow(k)).buf, FlushContext(k, clock);
    FlushLoop(k, clock);
    LoopContext(k, clock);
    CandidateAt(k, i);
    DecidesAt(buf, c, i);
    LoopReads(buf, c, i);
    now := Transmit(buf, i, c).current;
    WentIff(k, clock, i);
    ReadsIff(k, clock, i, now);
  }

  /** Whatever the clock says: a segment overtaken often enough is on the wire once, and
      is not sent for that reason again. */
  lemma OvertakenIsSent(k: State, clock: seq<u32>, i: nat)
    requires k.cfg.fastresend < HALF && i < |Flush(k, true, clock).k.snd.buf| && i < |k.snd.buf| + |k.snd.queue|
    requires Overdue(Candidate(k, i), k.cfg.fastresend, |Flush(k, true, clock).k.snd.buf| > |k.snd.buf|)
    ensures OnWire(k, Flush(k, true, clock).packets, i) == 1 && Flush(k, true, clock).k.snd.buf[i].fastack == U32_MAX
  {
    hide Flush, OnWire, Reads, Candidate;
    var now := FlushDecides(k, clock, i);
  }

  /** A flush of acknowledgements numbers new segments and sends none. */
  lemma AckOnlySendsNone(k: State, clock: seq<u32>, i: nat)
    requires i < |Flush(k, false, clock).k.snd.buf|
    ensures var f := Flush(k, false, clock);
            && i < |k.snd.buf| + |k.snd.queue| && f.k.snd.buf[i] == Candidate(k, i) && OnWire(k, f.packets, i) == 0
            && |f.k.snd.buf| == |Flush(k, true, clock).k.snd.buf| && f.k.snd.queue == Flush(k, true, clock).k.snd.queue
  {
    hide Packets, Penalize, Transmit, Admit, EffectiveWindow, NextProbe, Pushes, Flatten, Candidate;
    CandidateAt(k, i);
    FlushLoop(k, clock);
    FlushPushes(k, false, clock, Base(k.snd) + i);
  }

  // ------------------------------------------------- what the losses add up to

  ghost predicate Lost(kinds: seq<Kind>) { exists i :: 0 <= i < |kinds| && kinds[i] == Timeout }

  ghost predicate Changed(kinds: seq<Kind>) { exists i :: 0 <= i < |kinds| && (kinds[i] == Fast || kinds[i] == Early) }

  ghost predicate Given(buf: seq<Segment>, kinds: seq<Kind>, limit: u32) {
    |buf| == |kinds| && exists i :: 0 <= i < |buf| && kinds[i] != Skip && buf[i].xmit >= limit
  }

  lemma CountsOne(t: Tx, g: Segment, i: nat, c: TxContext)
    requires |t.buf| == |t.kinds|
    ensures var t' := TxOne(t, g, i, c);
            && t'.kinds == t.kinds + [t'.kinds[|t.kinds|]] && t'.buf == t.buf + [t'.buf[|t.buf|]]
            && var kind := t'.kinds[|t.kinds|];
               && (t'.lost > 0 <==> t.lost > 0 || kind == Timeout)
               && (t'.change > 0 <==> t.change > 0 || kind == Fast || kind == Early)
               && (t'.dead <==> t.dead || (kind != Skip && t'.buf[|t.buf|].xmit >= c.cfg.deadLink))
  {
    hide SendKind, Scheduled, W, Diff;
  }

  lemma {:induction false} LoopCounts(buf: seq<Segment>, n: nat, c: TxContext)
    requires n <= |buf|
    ensures var t := Transmit(buf, n, c);
            (t.lost > 0 <==> Lost(t.kinds)) && (t.change > 0 <==> Changed(t.kinds)) && (t.dead <==> Given(t.buf, t.kinds, c.cfg.deadLink))
  {
    hide TxOne;
    if n > 0 {
      LoopCounts(buf, n - 1, c);
      var t := Transmit(buf, n - 1, c);
      CountsOne(t, buf[n - 1], n - 1, c);
      MoreKinds(t.kinds, TxOne(t, buf[n - 1], n - 1, c).kinds[n - 1]);
      MoreGiven(t.buf, t.kinds, c.cfg.deadLink, TxOne(t, buf[n - 1], n - 1, c).buf[n - 1], TxOne(t, buf[n - 1], n - 1, c).kinds[n - 1]);
    }
  }

  lemma MoreKinds(kinds: seq<Kind>, kind: Kind)
    ensures Lost(kinds + [kind]) <==> Lost(kinds) || kind == Timeout
    ensures Changed(kinds + [kind]) <==> Changed(kinds) || kind == Fast || kind == Early
  {
    var all := kinds + [kind];
    assert all[|kinds|] == kind;
    assert forall i :: 0 <= i < |kinds| ==> all[i] == kinds[i];
  }

  lemma MoreGiven(buf: seq<Segment>, kinds: seq<Kind>, limit: u32, g: Segment, kind: Kind)
    requires |buf| == |kinds|
    ensures Given(buf + [g], kinds + [kind], limit) <==> Given(buf, kinds, limit) || (kind != Skip && g.xmit >= limit)
  {
    var all, ks := buf + [g], kinds + [kind];
    assert all[|buf|] == g && ks[|buf|] == kind;
    assert forall i :: 0 <= i < |buf| ==> all[i] == buf[i] && ks[i] == kinds[i];
  }

  /** Position i was sent again because its time had come. */
  ghost predicate TimedOut(k: State, f: FlushResult, i: nat) {
    && i < |f.k.snd.buf| && i < |k.snd.buf| + |k.snd.queue| && Went(k, f.packets, i)
    && Waits(Candidate(k, i), k.cfg.fastresend, |f.k.snd.buf| > |k.snd.buf|)
  }

  /** Position i was sent again because it had been overtaken. */
  ghost predicate Hurried(k: State, f: FlushResult, i: nat) {
    && i < |f.k.snd.buf| && i < |k.snd.buf| + |k.snd.queue|
    && Overdue(Candidate(k, i), k.cfg.fastresend, |f.k.snd.buf| > |k.snd.buf|)
  }

  lemma ReasonAt(k: State, clock: seq<u32>, i: nat)
    requires k.cfg.fastresend < HALF && i < |Flush(k, true, clock).kinds|
    ensures var f := Flush(k, true, clock);
            && |f.kinds| == |f.k.snd.buf| && (Went(k, f.packets, i) <==> f.kinds[i] != Skip)
            && (TimedOut(k, f, i) <==> f.kinds[i] == Timeout) && (Hurried(k, f, i) <==> f.kinds[i] == Fast || f.kinds[i] == Early)
  {
    hide Flush, Transmit, Admit, EffectiveWindow, FlushContext, Decided, OnWire, Candidate, SendKind, Overdue, Waits, Diff;
    var buf, c := Admit(k.snd, EffectiveWindow(k)).buf, FlushContext(k, clock);
    FlushLoop(k, clock);
    LoopContext(k, clock);
    CandidateAt(k, i);
    DecidesAt(buf, c, i);
    KindMeans(buf[i], Transmit(buf, i, c).current, c);
    WentIff(k, clock, i);
  }

  /** The window in force before the flush, with congestion control. */
  function Pipe(k: State): int { Min(Min(k.cfg.sndWnd, k.cong.rmtWnd), k.cong.cwnd) }

  /** What a flush makes of the congestion window. */
  ghost predicate Reacted(k: State, k': State, lost: bool, hurried: bool) {
    var c, c' := k.cong, k'.cong;
    && c'.rmtWnd == c.rmtWnd
    && (k.cfg.nocwnd ==> c' == c)
    && (!k.cfg.nocwnd && lost ==> c'.cwnd == 1 && c'.incr == k.cfg.mss && c'.ssthresh == Max(Pipe(k) / 2, THRESH_MIN))
    && (!k.cfg.nocwnd && !lost && hurried ==>
          && c'.ssthresh == Max(|k'.snd.buf| / 2, THRESH_MIN)
          && var cwnd := W(c'.ssthresh + if k.cfg.fastresend > 0 then k.cfg.fastresend else -1);
             c'.cwnd == Max(1, cwnd) && c'.incr == if cwnd == 0 then k.cfg.mss else W(cwnd * k.cfg.mss))
    && (!k.cfg.nocwnd && !lost && !hurried ==>
          c'.ssthresh == c.ssthresh && c'.cwnd == Max(1, c.cwnd) && c'.incr == if c.cwnd == 0 then k.cfg.mss else c.incr)
  }

  lemma ReactsTo(k: State, clock: seq<u32>)
    requires SndInv(k.snd) && k.cfg.fastresend < HALF
    ensures var f, t := Flush(k, true, clock), FlushTx(k, true, clock); Reacted(k, f.k, t.lost > 0, t.change > 0)
  {
    hide FlushTx, Packets, NextProbe, Admit, SndInv, W;
    var t, s := FlushTx(k, true, clock), Admit(k.snd, EffectiveWindow(k));
    AdmitKeeps(k.snd, EffectiveWindow(k));
    CongestionControl.InFlight(s);
    assert |t.buf| == |s.buf| by { LoopSize(k, clock); }
    assert Resent(k.cfg) == if k.cfg.fastresend > 0 then k.cfg.fastresend else U32_MAX by { ResentIs(k.cfg); }
    OneLess(Max(|s.buf| / 2, THRESH_MIN));
  }

  lemma LoopSize(k: State, clock: seq<u32>)
    ensures |FlushTx(k, true, clock).buf| == |Admit(k.snd, EffectiveWindow(k)).buf|
  {
  }

  lemma OneLess(x: int)
    ensures W(x + U32_MAX) == W(x - 1)
  {
  }

  lemma ResentIs(cfg: Config)
    requires cfg.fastresend < HALF
    ensures Resent(cfg) == if cfg.fastresend > 0 then cfg.fastresend else U32_MAX
  {
  }

  /** What a full flush does to the congestion window is decided by what it sent: any
      segment sent because its time had come, otherwise any sent because it had been
      overtaken; and the link is given up exactly when a segment sent has been sent as
      often as the limit says. */
  lemma FlushReacts(k: State, clock: seq<u32>)
    requires SndInv(k.snd) && k.cfg.fastresend < HALF
    ensures var f := Flush(k, true, clock);
            && Reacted(k, f.k, exists i :: TimedOut(k, f, i), exists i :: Hurried(k, f, i))
            && (f.k.dead <==> k.dead || exists i :: 0 <= i < |f.k.snd.buf| && Went(k, f.packets, i) && f.k.snd.buf[i].xmit >= k.cfg.deadLink)
  {
    hide Flush, FlushTx, Transmit, Reacted, TimedOut, Hurried, Went, Admit, EffectiveWindow, FlushContext;
    var f, t := Flush(k, true, clock), FlushTx(k, true, clock);
    var buf, c := Admit(k.snd, EffectiveWindow(k)).buf, FlushContext(k, clock);
    ReactsTo(k, clock);
    FlushLoop(k, clock);
    LoopContext(k, clock);
    assert t == Transmit(buf, |buf|, c) by { FullIsLoop(k, clock); }
    LoopCounts(buf, |buf|, c);
    forall i | 0 <= i < |f.kinds|
      ensures |f.kinds| == |f.k.snd.buf| && (Went(k, f.packets, i) <==> f.kinds[i] != Skip)
      ensures (TimedOut(k, f, i) <==> f.kinds[i] == Timeout) && (Hurried(k, f, i) <==> f.kinds[i] == Fast || f.kinds[i] == Early)
    {
      ReasonAt(k, clock, i);
    }
    forall i: nat | i >= |f.k.snd.buf| ensures !TimedOut(k, f, i) && !Hurried(k, f, i) { BeyondEnd(k, f, i); }
    assert Lost(f.kinds) <==> exists i: nat :: TimedOut(k, f, i);
    assert Changed(f.kinds) <==> exists i: nat :: Hurried(k, f, i);
  }

  lemma FullIsLoop(k: State, clock: seq<u32>)
    ensures var buf := Admit(k.snd, EffectiveWindow(k)).buf; FlushTx(k, true, clock) == Transmit(buf, |buf|, FlushContext(k, clock))
  {
  }

  lemma BeyondEnd(k: State, f: FlushResult, i: nat)
    requires i >= |f.k.snd.buf|
    ensures !TimedOut(k, f, i) && !Hurried(k, f, i)
  {
  }

  // ------------------------------------------------------------- the deadline

  /** How long segment i still has after the flush, by the clock as it was read there. */
  ghost predicate Left(k: State, f: FlushResult, clock: seq<u32>, i: nat, left: int) {
    i < |f.k.snd.buf| && !f.k.snd.buf[i].acked && exists now :: Reads(k, f.packets, clock, i + 1, now) && left == Diff(f.k.snd.buf[i].resendts, now)
  }

  lemma ReadsOnce(k: State, packets: seq<seq<Tagged>>, clock: seq<u32>, i: nat, now: u32, now': u32)
    requires Reads(k, packets, clock, i, now) && Reads(k, packets, clock, i, now')
    ensures now == now'
  {
    hide Went;
  }

  lemma LeftAt(k: State, clock: seq<u32>, i: nat, left: int)
    requires k.cfg.fastresend < HALF && i < |Admit(k.snd, EffectiveWindow(k)).buf|
    ensures var buf, c := Admit(k.snd, EffectiveWindow(k)).buf, FlushContext(k, clock);
            Left(k, Flush(k, true, clock), clock, i, left) <==> !buf[i].acked && left == Timers.Remaining(buf, c, i)
  {
    hide Flush, Admit, EffectiveWindow, FlushContext, Transmit, Reads, ReadBy, SendKind, Diff;
    var buf, c, f := Admit(k.snd, EffectiveWindow(k)).buf, FlushContext(k, clock), Flush(k, true, clock);
    FlushLoop(k, clock);
    LoopContext(k, clock);
    DecidesAt(buf, c, i);
    Stays(buf, |buf|, c, i);
    LoopReads(buf, c, i + 1);
    var now := Transmit(buf, i + 1, c).current;
    ReadsIff(k, clock, i + 1, now);
    var m, ps := i + 1, f.packets;
    forall other: u32 | Reads(k, ps, clock, m, other) ensures other == now { ReadsOnce(k, ps, clock, m, other, now); }
  }

  /** A full flush asks to be called again at the earliest deadline: no later than the
      interval or than any segment in flight that still has time, and at one of them. */
  lemma FlushDeadline(k: State, clock: seq<u32>)
    requires k.cfg.fastresend < HALF
    ensures var f := Flush(k, true, clock);
            && f.next <= k.cfg.interval
            && (forall i, left :: Left(k, f, clock, i, left) && left > 0 ==> f.next <= left)
            && (f.next == k.cfg.interval || exists i :: Left(k, f, clock, i, f.next) && f.next > 0)
  {
    hide Flush, Admit, EffectiveWindow, FlushContext, Transmit, Left, Timers.Remaining;
    var buf, c, f := Admit(k.snd, EffectiveWindow(k)).buf, FlushContext(k, clock), Flush(k, true, clock);
    FlushLoop(k, clock);
    LoopContext(k, clock);
    Timers.DeadlineIsEarliest(buf, |buf|, c);
    forall i: nat, left: int | Left(k, f, clock, i, left) && left > 0 ensures f.next <= left {
      LeftInside(k, f, clock, i, left);
      LeftAt(k, clock, i, left);
    }
    if f.next != k.cfg.interval {
      var i :| 0 <= i < |buf| && !buf[i].acked && f.next == Timers.Remaining(buf, c, i) > 0;
      LeftAt(k, clock, i, f.next);
    }
  }

  lemma LeftInside(k: State, f: FlushResult, clock: seq<u32>, i: nat, left: int)
    requires Left(k, f, clock, i, left)
    ensures i < |f.k.snd.buf|
  {
  }
}
