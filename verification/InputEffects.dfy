/** What a packet does to the endpoint it arrives at, in terms of the unbounded numbers
    behind its 32-bit fields: what it settles, what is acknowledged in return, what it
    says about the peer, and whether it is answered at once. */
module InputEffects {
  import opened Serial
  import opened KcpState
  import opened WireFormat
  import opened KcpWindows
  import opened Delivery
  import opened Accounting
  import Timers

  // ------------------------------------------------------------ the send side

  /** The segment with number j. */
  ghost function WithNumber(s: Sender, j: int): Segment
    requires Base(s) <= j < s.total
  {
    s.buf[j - Base(s)]
  }

  /** Everything below una is settled. */
  lemma UnaSettles(s: Sender, unaId: int)
    requires SndInv(s) && -HALF <= unaId - Base(s) < HALF
    ensures var c := Cumulative(s, W(unaId));
            && SndInv(c) && c.total == s.total && c.queue == s.queue && Base(c) == Max(Base(s), Min(unaId, s.total))
            && forall j :: Base(c) <= j < s.total ==> WithNumber(c, j) == WithNumber(s, j)
  {
    hide W, Diff;
    DiffIsUnboundedDifference(unaId, Base(s));
    CumulativeKeeps(s, W(unaId));
  }

  /** What an acknowledgement of number id, stamped ts, does to the segment with number j:
      it is marked, or counted as overtaken when it was sent no later, or left alone. */
  ghost predicate AckedOne(g: Segment, g': Segment, j: int, id: int, ts: u32) {
    && (j == id ==> g' == g.(acked := true, data := []))
    && (j < id && Diff(g.ts, ts) <= 0 && g.fastack != U32_MAX ==> g' == g.(fastack := g.fastack + 1))
    && (j < id && !(Diff(g.ts, ts) <= 0 && g.fastack != U32_MAX) ==> g' == g)
    && (j > id ==> g' == g)
  }

  /** The position of a number that is in flight, or may have been. */
  lemma InFlightAt(s: Sender, id: int)
    requires SndInv(s) && -(RANGE - WND_MAX) < id - Base(s) < HALF
    ensures Base(s) <= id < s.total ==> Position(s, W(id)) == id - Base(s) < |s.buf|
    ensures !(Base(s) <= id < s.total) ==> Position(s, W(id)) >= |s.buf|
  {
    hide W, Position;
    PositionOf(s, id);
  }

  lemma AckSettles(s: Sender, id: int, ts: u32)
    requires SndInv(s) && -(RANGE - WND_MAX) < id - Base(s) < HALF
    ensures var s' := ParseFastack(ParseAck(s, W(id)), W(id), ts);
            && |s'.buf| == |s.buf| && s' == s.(buf := s'.buf)
            && (!(Base(s) <= id < s.total) ==> s' == s)
            && (Base(s) <= id < s.total ==> forall j :: Base(s) <= j < s.total ==> AckedOne(WithNumber(s, j), WithNumber(s', j), j, id, ts))
  {
    hide W, Position, Diff;
    InFlightAt(s, id);
    var a := ParseAck(s, W(id));
    assert Position(a, W(id)) == Position(s, W(id)) by { SamePosition(s, a, W(id)); }
  }

  lemma SamePosition(s: Sender, s': Sender, sn: u32)
    requires s'.una == s.una
    ensures Position(s', sn) == Position(s, sn)
  {
  }

  /** The numbers behind the fields of a segment, not too far from the sender's own. */
  ghost predicate NearSender(s: Sender, t: Tagged) {
    && t.w.una == W(t.unaId) && -HALF <= t.unaId - Base(s) < HALF
    && (t.w.cmd == CMD_ACK ==> t.w.sn == W(t.id) && -(RANGE - 2 * WND_MAX) < t.id - Base(s) < HALF)
  }

  /** One segment of a packet at the send side: everything below its una is settled; an
      acknowledgement of a number still in flight marks it and counts those it overtook;
      nothing else changes. */
  lemma SegmentSettles(a: Absorbed, t: Tagged, regular: bool)
    requires SndInv(a.k.snd) && NearSender(a.k.snd, t)
    ensures var s, s' := a.k.snd, AbsorbOne(a, t, regular).k.snd;
            && SndInv(s') && s'.total == s.total && s'.queue == s.queue && Base(s') == Max(Base(s), Min(t.unaId, s.total))
            && forall j :: Base(s') <= j < s.total ==>
                 if t.w.cmd == CMD_ACK && Base(s') <= t.id < s.total then AckedOne(WithNumber(s, j), WithNumber(s', j), j, t.id, t.w.ts)
                 else WithNumber(s', j) == WithNumber(s, j)
  {
    hide W, Diff, Cumulative, ParseAck, ParseFastack, AckedOne, SndInv, ReceiverAfter, AcksAfter, WantsFlush;
    var s := a.k.snd;
    UnaSettles(s, t.unaId);
    var c := Cumulative(s, W(t.unaId));
    if t.w.cmd == CMD_ACK {
      BaseMoves(s, c);
      AckSettles(c, t.id, t.w.ts);
      ParseAckKeeps(c, t.w.sn);
      ParseFastackKeeps(ParseAck(c, t.w.sn), t.w.sn, t.w.ts);
    }
  }

  lemma BaseMoves(s: Sender, c: Sender)
    requires SndInv(s) && SndInv(c) && c.total == s.total
    ensures Base(s) <= Base(c) ==> Base(c) - Base(s) <= WND_MAX
  {
  }

  // --------------------------------------------------------- the receive side

  /** The number behind the field of a data segment, not too far from the receiver's. */
  ghost predicate NearReceiver(r: Receiver, t: Tagged) { t.w.sn == W(t.id) && -HALF <= t.id - (r.total + r.wnd) < HALF }

  lemma BelowTopMeans(r: Receiver, t: Tagged)
    requires RcvInv(r) && NearReceiver(r, t)
    ensures BelowWindowTop(r, t.w.sn) <==> t.id < r.total + r.wnd
  {
    hide W, Diff, RcvInv;
    assert r.nxt == W(r.total) by { NextIs(r); }
    WAdd(r.total, r.wnd);
    DiffIsUnboundedDifference(t.id, r.total + r.wnd);
  }

  lemma NextIs(r: Receiver)
    requires RcvInv(r)
    ensures r.nxt == W(r.total)
  {
  }

  /** The state when segment i of a packet is looked at. */
  ghost function At(k: State, ts: seq<Tagged>, regular: bool, i: nat): State
    requires i <= |ts|
  {
    Absorb(k, ts[..i], regular).k
  }

  /** Segment i is data below the top of the receive window when it is looked at. */
  ghost predicate Arrives(k: State, ts: seq<Tagged>, regular: bool, i: nat)
    requires i < |ts|
  {
    ts[i].w.cmd == CMD_PUSH && ts[i].id < At(k, ts, regular, i).rcv.total + k.rcv.wnd
  }

  ghost predicate AllNear(k: State, ts: seq<Tagged>, regular: bool) {
    forall i :: 0 <= i < |ts| ==> NearAt(k, ts, regular, i)
  }

  ghost predicate NearAt(k: State, ts: seq<Tagged>, regular: bool, i: nat)
    requires i < |ts|
  {
    ts[i].w.cmd == CMD_PUSH ==> NearReceiver(At(k, ts, regular, i).rcv, ts[i])
  }

  lemma AbsorbNext(k: State, ts: seq<Tagged>, regular: bool, i: nat)
    requires i < |ts|
    ensures Absorb(k, ts[..i + 1], regular) == AbsorbOne(Absorb(k, ts[..i], regular), ts[i], regular)
  {
    hide AbsorbOne;
    assert ts[..i + 1][..i] == ts[..i];
  }

  lemma AcksNext(k: State, ts: seq<Tagged>, regular: bool, i: nat)
    requires Good(k) && i < |ts| && NearAt(k, ts, regular, i)
    ensures At(k, ts, regular, i + 1).acks ==
            At(k, ts, regular, i).acks + if Arrives(k, ts, regular, i) then [AckItem(ts[i].w.sn, ts[i].w.ts, ts[i].id)] else []
  {
    hide Absorb, SenderAfter, ReceiverAfter, WantsFlush, BelowWindowTop;
    AbsorbNext(k, ts, regular, i);
    AbsorbKeeps(k, ts[..i], regular);
    if ts[i].w.cmd == CMD_PUSH { BelowTopMeans(At(k, ts, regular, i).rcv, ts[i]); }
  }

  lemma {:induction false} AcksUpTo(k: State, ts: seq<Tagged>, regular: bool, n: nat, a: AckItem)
    requires Good(k) && n <= |ts| && AllNear(k, ts, regular)
    ensures a in At(k, ts, regular, n).acks <==>
            a in k.acks || exists i :: 0 <= i < n && Arrives(k, ts, regular, i) && a == AckItem(ts[i].w.sn, ts[i].w.ts, ts[i].id)
    ensures |k.acks| <= |At(k, ts, regular, n).acks| && At(k, ts, regular, n).acks[..|k.acks|] == k.acks
  {
    hide At, Arrives, NearAt;
    if n == 0 {
      NothingYet(k, ts, regular);
    } else {
      AcksUpTo(k, ts, regular, n - 1, a);
      assert NearAt(k, ts, regular, n - 1);
      AcksNext(k, ts, regular, n - 1);
    }
  }

  lemma NothingYet(k: State, ts: seq<Tagged>, regular: bool)
    ensures At(k, ts, regular, 0) == k
  {
    assert ts[..0] == [];
  }

  /** After a packet exactly those of its data segments that were below the top of the
      receive window, new or not, wait to be acknowledged, besides what waited before. */
  lemma PacketIsAcknowledged(k: State, ts: seq<Tagged>, regular: bool, a: AckItem)
    requires Good(k) && AllNear(k, ts, regular)
    ensures a in Absorb(k, ts, regular).k.acks <==>
            a in k.acks || exists i :: 0 <= i < |ts| && Arrives(k, ts, regular, i) && a == AckItem(ts[i].w.sn, ts[i].w.ts, ts[i].id)
  {
    hide Absorb, Arrives, AllNear;
    assert ts[..|ts|] == ts;
    AcksUpTo(k, ts, regular, |ts|, a);
  }

  // --------------------------------------------------- what the packet tells

  /** The last acknowledgement of the packet is segment i. */
  ghost predicate LastAckAt(ts: seq<Tagged>, i: nat) {
    i < |ts| && ts[i].w.cmd == CMD_ACK && forall j :: i < j < |ts| ==> ts[j].w.cmd != CMD_ACK
  }

  ghost predicate Has(ts: seq<Tagged>, cmd: byte) { exists i :: 0 <= i < |ts| && ts[i].w.cmd == cmd }

  lemma HasMore(ts: seq<Tagged>, cmd: byte)
    requires ts != []
    ensures Has(ts, cmd) <==> Has(ts[..|ts|-1], cmd) || ts[|ts|-1].w.cmd == cmd
  {
    var init := ts[..|ts|-1];
    assert forall i :: 0 <= i < |init| ==> init[i] == ts[i];
    if ts[|ts|-1].w.cmd == cmd { assert Has(ts, cmd); }
    if Has(init, cmd) { var i :| 0 <= i < |init| && init[i].w.cmd == cmd; assert ts[i].w.cmd == cmd; }
  }

  /** The peer's window is what the last segment of a packet from the peer says; a
      question is to be answered; the last acknowledgement is the one that is timed. */
  lemma {:induction false} PacketTells(k: State, ts: seq<Tagged>, regular: bool)
    ensures var a := Absorb(k, ts, regular);
            && a.k.cong == (if regular && ts != [] then k.cong.(rmtWnd := ts[|ts|-1].w.wnd) else k.cong)
            && a.k.probe == k.probe.(tell := k.probe.tell || Has(ts, CMD_WASK))
            && (a.acked <==> Has(ts, CMD_ACK))
            && forall i: nat :: LastAckAt(ts, i) ==> a.latest == ts[i].w.ts
  {
    hide SenderAfter, ReceiverAfter, AcksAfter, WantsFlush, Has;
    if ts == [] {
      assert !Has(ts, CMD_ACK) && !Has(ts, CMD_WASK) by { HasNothing(); }
    } else {
      var init := ts[..|ts|-1];
      PacketTells(k, init, regular);
      HasMore(ts, CMD_ACK);
      HasMore(ts, CMD_WASK);
      forall i: nat | LastAckAt(ts, i) ensures Absorb(k, ts, regular).latest == ts[i].w.ts {
        if i < |ts| - 1 { assert LastAckAt(init, i) && ts[|ts|-1].w.cmd != CMD_ACK; }
      }
    }
  }

  lemma HasNothing()
    ensures forall cmd :: !Has([], cmd)
  {
  }

  // --------------------------------------------- the end of Input, before a flush

  lemma {:induction false} AbsorbBase(k: State, ts: seq<Tagged>, regular: bool)
    requires SndInv(k.snd)
    ensures var s := Absorb(k, ts, regular).k.snd;
            SndInv(s) && s.total == k.snd.total && s.queue == k.snd.queue && Base(k.snd) <= Base(s) <= Base(k.snd) + WND_MAX
  {
    hide SndInv, SenderAfter, ReceiverAfter, AcksAfter, WantsFlush;
    if ts == [] {
      FewInFlight(k.snd);
    } else {
      AbsorbBase(k, ts[..|ts|-1], regular);
      var s := Absorb(k, ts[..|ts|-1], regular).k.snd;
      SenderBase(s, ts[|ts|-1].w);
      FewInFlight(k.snd);
      FewInFlight(SenderAfter(s, ts[|ts|-1].w));
    }
  }

  lemma FewInFlight(s: Sender)
    requires SndInv(s)
    ensures s.total - WND_MAX <= Base(s) <= s.total
  {
  }

  lemma SenderBase(s: Sender, w: Wire)
    requires SndInv(s)
    ensures var s' := SenderAfter(s, w);
            SndInv(s') && s'.total == s.total && s'.queue == s.queue && Base(s') == Base(s) + Acknowledged(s, w.una)
  {
    hide SndInv, Acknowledged;
    CumulativeKeeps(s, w.una);
    var c := Cumulative(s, w.una);
    ParseAckKeeps(c, w.sn);
    ParseFastackKeeps(ParseAck(c, w.sn), w.sn, w.ts);
    SameTotals(c, w.sn, w.ts);
  }

  lemma SameTotals(c: Sender, sn: u32, ts: u32)
    ensures var s := ParseFastack(ParseAck(c, sn), sn, ts); s.total == c.total && s.queue == c.queue
  {
  }

  lemma UnaMoved(s: Sender, s': Sender)
    requires SndInv(s) && SndInv(s') && Base(s) <= Base(s') <= Base(s) + WND_MAX
    ensures Diff(s'.una, s.una) > 0 <==> Base(s') > Base(s)
  {
    hide W, Diff;
    DiffIsUnboundedDifference(Base(s'), Base(s));
  }

  /** The round trip that Input times: since the last acknowledgement of a packet that
      came from the peer itself was stamped, when the clock has not gone back. */
  ghost predicate Times(ts: seq<Tagged>, regular: bool, now: u32, rtt: int) {
    regular && exists i: nat :: LastAckAt(ts, i) && rtt == Diff(now, ts[i].w.ts) >= 0
  }

  lemma LastOfThem(ts: seq<Tagged>) returns (i: nat)
    requires Has(ts, CMD_ACK)
    ensures LastAckAt(ts, i)
  {
    if ts[|ts|-1].w.cmd == CMD_ACK {
      i := |ts| - 1;
    } else {
      HasMore(ts, CMD_ACK);
      i := LastOfThem(ts[..|ts|-1]);
      assert forall j :: 0 <= j < |ts| - 1 ==> ts[..|ts|-1][j] == ts[j];
    }
  }

  /** After the segments: the round trip is timed when there is one to time; the
      congestion window grows exactly when congestion control is on and something was
      settled. */
  lemma InputAdjusts(k: State, ts: seq<Tagged>, regular: bool, now: u32)
    requires SndInv(k.snd)
    ensures var k', a := BeforeFlush(k, ts, regular, now), Absorb(k, ts, regular).k;
            && k' == a.(rtt := k'.rtt, cong := k'.cong)
            && (forall rtt: nat31 :: Times(ts, regular, now, rtt) ==> k'.rtt == UpdateAck(k, rtt).rtt)
            && ((forall rtt: nat31 :: !Times(ts, regular, now, rtt)) ==> k'.rtt == k.rtt)
            && k'.cong == if !k.cfg.nocwnd && Base(a.snd) > Base(k.snd) then Grow(a.cong, k.cfg.mss) else a.cong
  {
    hide Absorb, Grow, UpdateAck, SndInv, Has, LastAckAt;
    var a := Absorb(k, ts, regular);
    PacketTells(k, ts, regular);
    Timers.AbsorbTimers(k, ts, regular);
    AbsorbBase(k, ts, regular);
    UnaMoved(k.snd, a.k.snd);
    if Has(ts, CMD_ACK) {
      var i := LastOfThem(ts);
      forall j: nat | LastAckAt(ts, j) ensures j == i { OnlyLast(ts, i, j); }
      var rtt := Diff(now, ts[i].w.ts);
      if regular && rtt >= 0 {
        assert Times(ts, regular, now, rtt);
        SameUpdate(k, a.k, rtt);
      }
    } else {
      forall i: nat ensures !LastAckAt(ts, i) { NoLast(ts, i); }
    }
  }

  lemma OnlyLast(ts: seq<Tagged>, i: nat, j: nat)
    requires LastAckAt(ts, i) && LastAckAt(ts, j)
    ensures i == j
  {
  }

  lemma NoLast(ts: seq<Tagged>, i: nat)
    requires !Has(ts, CMD_ACK)
    ensures !LastAckAt(ts, i)
  {
  }

  lemma SameUpdate(k: State, a: State, rtt: nat31)
    requires a.rtt == k.rtt && a.cfg == k.cfg
    ensures UpdateAck(a, rtt).rtt == UpdateAck(k, rtt).rtt && UpdateAck(a, rtt) == a.(rtt := UpdateAck(k, rtt).rtt)
  {
    hide W;
  }

  // ------------------------------------------------------ which flush ends Input

  /** Something was settled. */
  ghost predicate Slid(s: Sender, s': Sender) { Base(s') > Base(s) }

  /** Number j is still in flight, was overtaken since, and that often that it counts. */
  ghost predicate Reached(s: Sender, s': Sender, j: int, limit: u32) {
    && Base(s) <= Base(s') <= j < s'.total == s.total
    && WithNumber(s', j).fastack > WithNumber(s, j).fastack && WithNumber(s', j).fastack >= limit
  }

  /** Counts never go down while a packet is taken in. */
  ghost predicate Counts(s: Sender, s': Sender) {
    Base(s) <= Base(s') && s'.total == s.total
    && forall j :: Base(s') <= j < s.total ==> WithNumber(s, j).fastack <= WithNumber(s', j).fastack
  }

  /** The count of the segment at position i after an acknowledgement. */
  lemma CountAt(s: Sender, w: Wire, i: nat)
    requires i < |Cumulative(s, w.una).buf|
    ensures var c, s' := Cumulative(s, w.una), SenderAfter(s, w);
            var a := ParseAck(c, w.sn);
            && |s'.buf| == |c.buf| == |a.buf|
            && a.buf[i].fastack == c.buf[i].fastack
            && s'.buf[i].fastack ==
                 if w.cmd == CMD_ACK && i < Position(a, w.sn) < |a.buf| && Overtaken(a.buf[i], w.ts) then c.buf[i].fastack + 1 else c.buf[i].fastack
  {
    hide Diff, Acknowledged, Position;
  }

  /** The threshold is reached at position i. */
  ghost predicate DueAt(s: Sender, w: Wire, i: int, limit: u32) {
    var c := Cumulative(s, w.una);
    var a := ParseAck(c, w.sn);
    w.cmd == CMD_ACK && 0 <= i < Position(a, w.sn) < |a.buf| && Overtaken(a.buf[i], w.ts) && a.buf[i].fastack + 1 >= limit
  }

  lemma DueSomewhere(s: Sender, w: Wire, fastresend: int)
    ensures w.cmd == CMD_ACK && FastackDue(ParseAck(Cumulative(s, w.una), w.sn), w.sn, w.ts, fastresend)
            <==> exists i :: DueAt(s, w, i, W(fastresend))
  {
    hide W, Cumulative, ParseAck, Position, Overtaken;
    var a := ParseAck(Cumulative(s, w.una), w.sn);
    if w.cmd == CMD_ACK && FastackDue(a, w.sn, w.ts, fastresend) {
      var i :| 0 <= i < Position(a, w.sn) && Overtaken(a.buf[i], w.ts) && a.buf[i].fastack + 1 >= W(fastresend);
      assert DueAt(s, w, i, W(fastresend));
    }
  }

  lemma DueIffReached(s: Sender, w: Wire, i: nat, limit: u32)
    requires SndInv(s) && i < |Cumulative(s, w.una).buf|
    ensures var c, s' := Cumulative(s, w.una), SenderAfter(s, w); DueAt(s, w, i, limit) <==> Reached(s, s', Base(c) + i, limit)
  {
    hide SndInv, Cumulative, ParseAck, ParseFastack, Position, Overtaken;
    SenderBase(s, w);
    CumulativeKeeps(s, w.una);
    CountAt(s, w, i);
    CutAt(s, w.una, i);
    SameBuffer(s, w);
  }

  lemma SameBuffer(s: Sender, w: Wire)
    ensures Cumulative(s, w.una).total == s.total && |SenderAfter(s, w).buf| == |Cumulative(s, w.una).buf|
  {
    hide Acknowledged, Position;
  }

  /** The resend threshold is reached by an acknowledgement exactly when some count goes
      up to it. */
  lemma DueIsReached(s: Sender, w: Wire, fastresend: int)
    requires SndInv(s)
    ensures w.cmd == CMD_ACK && FastackDue(ParseAck(Cumulative(s, w.una), w.sn), w.sn, w.ts, fastresend)
            <==> exists j :: Reached(s, SenderAfter(s, w), j, W(fastresend))
  {
    hide SndInv, W, Cumulative, SenderAfter, ParseAck, FastackDue, DueAt, Reached;
    var c, s', limit := Cumulative(s, w.una), SenderAfter(s, w), W(fastresend);
    DueSomewhere(s, w, fastresend);
    SenderBase(s, w);
    CumulativeKeeps(s, w.una);
    SameBuffer(s, w);
    if i :| DueAt(s, w, i, limit) {
      DueInside(s, w, i, limit);
      DueIffReached(s, w, i, limit);
    }
    if j :| Reached(s, s', j, limit) {
      ReachedInside(s, s', j, limit);
      DueIffReached(s, w, j - Base(c), limit);
    }
  }

  lemma DueInside(s: Sender, w: Wire, i: int, limit: u32)
    requires DueAt(s, w, i, limit)
    ensures 0 <= i < |Cumulative(s, w.una).buf|
  {
    hide Cumulative, Position, Overtaken;
  }

  lemma ReachedInside(s: Sender, s': Sender, j: int, limit: u32)
    requires Reached(s, s', j, limit)
    ensures Base(s) <= Base(s') <= j < s'.total == s.total
  {
  }

  /** One segment never lowers a count. */
  lemma CountsOn(s: Sender, w: Wire)
    requires SndInv(s)
    ensures Counts(s, SenderAfter(s, w))
  {
    hide SndInv, Cumulative, ParseAck, ParseFastack, Position, Overtaken, SenderAfter;
    SenderBase(s, w);
    CumulativeKeeps(s, w.una);
    SameBuffer(s, w);
    var c, s' := Cumulative(s, w.una), SenderAfter(s, w);
    forall j | Base(s') <= j < s.total ensures WithNumber(s, j).fastack <= WithNumber(s', j).fastack {
      CountAt(s, w, j - Base(c));
      CutAt(s, w.una, j - Base(c));
    }
  }

  lemma CutAt(s: Sender, una: u32, i: nat)
    requires i < |Cumulative(s, una).buf|
    ensures var c := Cumulative(s, una); c.buf[i] == s.buf[i + Acknowledged(s, una)] && Base(c) == Base(s) + Acknowledged(s, una)
  {
    hide Acknowledged;
  }

  /** Taking in one more segment. */
  lemma ReachedLater(s0: Sender, s: Sender, w: Wire, limit: u32)
    requires SndInv(s) && Counts(s0, s)
    ensures var s' := SenderAfter(s, w);
            && Counts(s0, s') && (Slid(s0, s') <==> Slid(s0, s) || Acknowledged(s, w.una) > 0)
            && (Slid(s0, s') || (exists j :: Reached(s0, s', j, limit)) <==>
                  || Slid(s0, s') || (exists j :: Reached(s0, s, j, limit)) || exists j :: Reached(s, s', j, limit))
  {
    hide SndInv, SenderAfter;
    CountsOn(s, w);
    SenderBase(s, w);
    var s' := SenderAfter(s, w);
    if !Slid(s0, s') {
      if j :| Reached(s0, s', j, limit) {
        if WithNumber(s', j).fastack == WithNumber(s, j).fastack { assert Reached(s0, s, j, limit); } else { assert Reached(s, s', j, limit); }
      }
      if j :| Reached(s0, s, j, limit) { assert Reached(s0, s', j, limit); }
      if j :| Reached(s, s', j, limit) { assert Reached(s0, s', j, limit); }
    }
  }

  lemma {:induction false} AskedIff(k: State, ts: seq<Tagged>, regular: bool)
    requires SndInv(k.snd)
    ensures var a := Absorb(k, ts, regular);
            && SndInv(a.k.snd) && Counts(k.snd, a.k.snd)
            && (a.flush <==> Slid(k.snd, a.k.snd) || exists j :: Reached(k.snd, a.k.snd, j, W(k.cfg.fastresend)))
  {
    hide SndInv, SenderAfter, ReceiverAfter, AcksAfter, Counts, Slid, Reached, FastackDue, W, Cumulative;
    AbsorbBase(k, ts, regular);
    if ts == [] {
      NothingReached(k.snd, W(k.cfg.fastresend));
    } else {
      var init, w := ts[..|ts|-1], ts[|ts|-1].w;
      AskedIff(k, init, regular);
      AbsorbKeepsConfig(k, init, regular);
      var s := Absorb(k, init, regular).k.snd;
      DueIsReached(s, w, k.cfg.fastresend);
      ReachedLater(k.snd, s, w, W(k.cfg.fastresend));
    }
  }

  lemma NothingReached(s: Sender, limit: u32)
    ensures Counts(s, s) && !Slid(s, s) && forall j :: !Reached(s, s, j, limit)
  {
  }

  /** The packet is answered with a full flush: something was settled, or some segment in
      flight was overtaken and that often that it is to be sent again. */
  ghost predicate Urgent(k: State, k': State) {
    Slid(k.snd, k'.snd) || exists j :: Reached(k.snd, k'.snd, j, W(k.cfg.fastresend))
  }

  /** Otherwise with a flush of acknowledgements, when one more would not fit a packet or
      when that was asked for. */
  ghost predicate AckNow(k: State, ackNoDelay: bool) {
    OVERHEAD * (|k.acks| + 1) > k.cfg.mtu || (ackNoDelay && k.acks != [])
  }

  lemma FullPacket(n: nat, mtu: u32)
    ensures n >= mtu / OVERHEAD <==> OVERHEAD * (n + 1) > mtu
  {
  }

  lemma SameSender(k: State, ts: seq<Tagged>, regular: bool, now: u32)
    ensures var k', a := BeforeFlush(k, ts, regular, now), Absorb(k, ts, regular).k; k'.snd == a.snd && k'.acks == a.acks && k'.cfg == k.cfg
  {
    hide Absorb, Grow;
    AbsorbKeepsConfig(k, ts, regular);
  }

  /** How Input ends, for every packet that parses: with a full flush exactly when it is
      urgent, otherwise with a flush of acknowledgements exactly when they are due now,
      and otherwise without one. */
  lemma InputFlushes(k: State, ts: seq<Tagged>, regular: bool, ackNoDelay: bool, clock: seq<u32>)
    requires SndInv(k.snd)
    ensures var r, k' := Input(k, ts, 0, regular, ackNoDelay, clock), BeforeFlush(k, ts, regular, Now(clock, 0));
            && r.code == 0
            && (Urgent(k, k') ==> r.k == Flush(k', true, clock).k && r.packets == Flush(k', true, clock).packets)
            && (!Urgent(k, k') && AckNow(k', ackNoDelay) ==> r.k == Flush(k', false, clock).k && r.packets == Flush(k', false, clock).packets)
            && (!Urgent(k, k') && !AckNow(k', ackNoDelay) ==> r.k == k' && r.packets == [])
  {
    hide Flush, BeforeFlush, Absorb, SndInv, Slid, Reached, W;
    AskedIff(k, ts, regular);
    SameSender(k, ts, regular, Now(clock, 0));
    FullPacket(|BeforeFlush(k, ts, regular, Now(clock, 0)).acks|, k.cfg.mtu);
  }
}
