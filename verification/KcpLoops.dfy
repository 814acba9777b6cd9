/** The loops of the protocol engine over its queues and buffers, each proved to
    compute the reference definition that replaces it. */
module KcpLoops {
  import opened Serial
  import opened KcpState
  import opened KcpWindows
  import opened SegmentHeap
  import opened OutputBuffer

  // -------------------------------------------------------------------- Send

  /** One segment per mss bytes, numbered down to 0. */
  method Fragment(data: seq<byte>, mss: pos32, count: nat, stream: bool) returns (q: seq<Segment>)
    requires count <= 255
    ensures q == Fragments(data, mss, count, stream)
  {
    q := [];
    var rest := data;
    var i := 0;
    while i < count
      invariant 0 <= i <= count
      invariant q + Fragments(rest, mss, count - i, stream) == Fragments(data, mss, count, stream)
    {
      var size := Min(|rest|, mss);
      var frg := if stream then 0 else count - i - 1;
      q := q + [NewSegment(frg, rest[..size])];
      rest := rest[size..];
      i := i + 1;
    }
  }

  method SendBytes(queue: seq<Segment>, data: seq<byte>, mss: pos32, stream: bool) returns (q: seq<Segment>, code: int)
    ensures Queued(q, code) == Enqueue(queue, data, mss, stream)
  {
    q := queue;
    if |data| == 0 {
      return q, -1;
    }
    var rest := data;
    if stream {
      if |q| > 0 {
        var n := |q| - 1;
        if |q[n].data| < mss {
          var extend := Min(|rest|, mss - |q[n].data|);
          q := q[n := q[n].(data := q[n].data + rest[..extend])];
          rest := rest[extend..];
        }
      }
      if |rest| == 0 {
        return q, 0;
      }
    }
    var count := FragmentCount(|rest|, mss);
    if count > 255 {
      return q, -2;
    }
    var more := Fragment(rest, mss, count, stream);
    q := q + more;
    return q, 0;
  }

  // -------------------------------------------------------- acknowledgements

  lemma UnaCompare(s: Sender, una: u32, c: nat)
    requires SndInv(s) && c < |s.buf| && (Diff(una, s.una) > 0 || c == 0)
    ensures Diff(una, s.buf[c].sn) == Diff(una, s.una) - c
  {
    var b, d := Base(s), Diff(una, s.una);
    RoundByDiff(b, una);
    DiffIsUnboundedDifference(b + d, b + c);
  }

  /** parse_una's scan for the segments a cumulative acknowledgement covers. */
  method CountAcknowledged(buf: seq<Segment>, una: u32, ghost s: Sender) returns (count: nat)
    requires SndInv(s) && s.buf == buf
    ensures count == Acknowledged(s, una)
  {
    count := 0;
    while count < |buf|
      invariant 0 <= count <= |buf|
      invariant count == 0 || count <= Diff(una, s.una)
    {
      UnaCompare(s, una, count);
      if Diff(una, buf[count].sn) > 0 {
        count := count + 1;
      } else {
        break;
      }
    }
  }

  /** The two guards of parse_ack and parse_fastack: the number is in flight. */
  lemma InFlightMeans(s: Sender, sn: u32)
    requires SndInv(s)
    ensures (Diff(sn, s.una) >= 0 && Diff(sn, s.nxt) < 0) <==> Position(s, sn) < |s.buf|
  {
    var b, i := Base(s), Position(s, sn);
    RoundTheCircle(b, sn);
    AheadOf(b, i);
    DiffIsUnboundedDifference(b + i, s.total);
  }

  lemma SnCompare(s: Sender, sn: u32, c: nat)
    requires SndInv(s) && Position(s, sn) < |s.buf| && c < |s.buf|
    ensures Diff(sn, s.buf[c].sn) == Position(s, sn) - c
    ensures sn == s.buf[c].sn <==> c == Position(s, sn)
  {
    hide W, Diff, Ahead;
    var b, i := Base(s), Position(s, sn);
    RoundTheCircle(b, sn);
    DiffIsUnboundedDifference(b + i, b + c);
    WInjective(b + i, b + c);
  }

  method MarkAck(buf: seq<Segment>, una: u32, nxt: u32, sn: u32, ghost s: Sender) returns (buf': seq<Segment>)
    requires SndInv(s) && s.buf == buf && s.una == una && s.nxt == nxt
    ensures buf' == ParseAck(s, sn).buf
  {
    buf' := buf;
    InFlightMeans(s, sn);
    if Diff(sn, una) < 0 || Diff(sn, nxt) >= 0 {
      return;
    }
    ghost var i := Position(s, sn);
    var ri := 0;
    while ri < |buf|
      invariant 0 <= ri <= i && buf' == buf
    {
      SnCompare(s, sn, ri);
      if sn == buf[ri].sn {
        buf' := buf[ri := MarkAcked(buf[ri])];
        return;
      }
      if Diff(sn, buf[ri].sn) < 0 {
        break;
      }
      ri := ri + 1;
    }
  }

  method BumpOvertaken(buf: seq<Segment>, una: u32, nxt: u32, sn: u32, ts: u32, fastresend: int, ghost s: Sender)
      returns (buf': seq<Segment>, due: bool)
    requires SndInv(s) && s.buf == buf && s.una == una && s.nxt == nxt
    ensures buf' == ParseFastack(s, sn, ts).buf && due == FastackDue(s, sn, ts, fastresend)
  {
    buf', due := buf, false;
    InFlightMeans(s, sn);
    if Diff(sn, una) < 0 || Diff(sn, nxt) >= 0 {
      return;
    }
    ghost var n := Position(s, sn);
    var ri := 0;
    while ri < |buf|
      invariant 0 <= ri <= |buf| && ri <= n + 1 && |buf'| == |buf|
      invariant forall i :: 0 <= i < |buf| ==> buf'[i] == if i < ri && i < n then Bump(buf[i], ts) else buf[i]
      invariant due <==> exists i :: 0 <= i < ri && i < n && Overtaken(buf[i], ts) && buf[i].fastack + 1 >= W(fastresend)
    {
      SnCompare(s, sn, ri);
      var g := buf[ri];
      if Diff(sn, g.sn) < 0 {
        break;
      } else if sn != g.sn && Diff(g.ts, ts) <= 0 {
        if g.fastack != U32_MAX {
          buf' := buf'[ri := g.(fastack := g.fastack + 1)];
          if g.fastack + 1 >= W(fastresend) {
            due := true;
          }
        }
      }
      ri := ri + 1;
    }
    assert buf' == ParseFastack(s, sn, ts).buf;
  }

  // ----------------------------------------------------------------- receive

  /** One round of the loop below: takes the least segment if it is the next one
      and there is room, and puts it back otherwise. */
  method TakeNext(h: seq<Segment>, marks: set<u32>, nxt: u32, room: bool, ghost m: map<u32, Segment>)
      returns (taken: bool, g: Segment, h': seq<Segment>, marks': set<u32>)
    requires h != [] && Holds(h, marks, m) && InOrder(h, nxt)
    ensures taken <==> nxt in m && room
    ensures taken ==> g == m[nxt] && Holds(h', marks', m - {nxt}) && InOrder(h', W(nxt + 1))
    ensures !taken ==> Holds(h', marks', m) && InOrder(h', nxt)
  {
    g, h', marks' := Pop(h, marks, nxt, m);
    taken := g.sn == nxt && room;
    if taken {
      AheadOfNext(h', marks', m - {nxt}, nxt);
      NextKeepsOrder(h', nxt);
    } else {
      PutBack(m, g);
      h', marks' := Push(h', marks', g, nxt, m - {g.sn});
    }
  }

  /** parse_data's and Recv's loop: moves the segments that are next in order. */
  method MoveReady(h: seq<Segment>, marks: set<u32>, queue: seq<Segment>, nxt: u32, wnd: u32, ghost r: Receiver)
      returns (h': seq<Segment>, marks': set<u32>, queue': seq<Segment>, nxt': u32, ghost r': Receiver)
    requires r.queue == queue && r.nxt == nxt && r.wnd == wnd
    requires Holds(h, marks, r.buf) && InOrder(h, nxt)
    ensures r' == MoveAvailable(r) && r'.queue == queue' && r'.nxt == nxt'
    ensures Holds(h', marks', r'.buf) && InOrder(h', nxt')
  {
    hide Holds, InOrder, MoveAvailable, Moved, W;
    h', marks', queue', nxt', r' := h, marks, queue, nxt, r;
    while |h'| > 0
      invariant r'.queue == queue' && r'.nxt == nxt' && r'.wnd == wnd
      invariant Holds(h', marks', r'.buf) && InOrder(h', nxt')
      invariant MoveAvailable(r') == MoveAvailable(r)
      decreases |r'.buf|
    {
      var taken, g;
      taken, g, h', marks' := TakeNext(h', marks', nxt', |queue'| < wnd, r'.buf);
      if !taken {
        MovesNone(r');
        return;
      }
      MovesOne(r');
      r' := Moved(r');
      queue', nxt' := queue' + [g], W(nxt' + 1);
    }
    EmptyHeap(h', marks', r'.buf);
    MovesNone(r');
  }

  lemma MovesOne(r: Receiver)
    requires r.nxt in r.buf && |r.queue| < r.wnd
    ensures MoveAvailable(r) == MoveAvailable(Moved(r))
    ensures var r' := Moved(r);
            && r'.queue == r.queue + [r.buf[r.nxt]] && r'.nxt == W(r.nxt + 1) && r'.wnd == r.wnd && r'.buf == r.buf - {r.nxt}
            && |r'.buf| < |r.buf|
  {
    hide W;
  }

  lemma MovesNone(r: Receiver)
    requires !(r.nxt in r.buf && |r.queue| < r.wnd)
    ensures MoveAvailable(r) == r
  {
  }

  lemma PutBack(m: map<u32, Segment>, g: Segment)
    requires g.sn in m && m[g.sn] == g
    ensures (m - {g.sn})[g.sn := g] == m
  {
  }

  lemma AheadOfNext(h: seq<Segment>, marks: set<u32>, m: map<u32, Segment>, nxt: u32)
    requires Holds(h, marks, m) && nxt !in m
    ensures forall g :: g in multiset(h) ==> g.sn != nxt
  {
  }

  method InsertData(h: seq<Segment>, marks: set<u32>, queue: seq<Segment>, nxt: u32, wnd: u32, g: Segment, ghost r: Receiver)
      returns (repeat: bool, h': seq<Segment>, marks': set<u32>, queue': seq<Segment>, nxt': u32, ghost r': Receiver)
    requires r.queue == queue && r.nxt == nxt && r.wnd == wnd
    requires Holds(h, marks, r.buf) && InOrder(h, nxt)
    ensures r' == ParseData(r, g) && r'.queue == queue' && r'.nxt == nxt'
    ensures Holds(h', marks', r'.buf) && InOrder(h', nxt')
    ensures repeat <==> !InWindow(r, g.sn) || g.sn in r.buf
  {
    if !BelowTop(nxt, wnd, g.sn) || Diff(g.sn, nxt) < 0 {
      return true, h, marks, queue, nxt, r;
    }
    ghost var r1 := if g.sn in r.buf then r else r.(buf := r.buf[g.sn := g]);
    var h1, marks1 := h, marks;
    repeat := g.sn in marks;
    if !repeat {
      h1, marks1 := Push(h, marks, g, nxt, r.buf);
    }
    h', marks', queue', nxt', r' := MoveReady(h1, marks1, queue, nxt, wnd, r1);
  }

  // -------------------------------------------------------------------- Recv

  /** MessageEnd is the first position behind a segment with frg 0, or the end. */
  lemma EndAt(q: seq<Segment>, n: nat)
    requires 0 < n <= |q| && (forall i :: 0 <= i < n - 1 ==> q[i].frg != 0) && (n == |q| || q[n - 1].frg == 0)
    ensures MessageEnd(q) == n
  {
  }

  method MessageSize(q: seq<Segment>) returns (size: int)
    ensures size == PeekSize(q)
  {
    if |q| == 0 {
      return -1;
    }
    if q[0].frg == 0 {
      return |q[0].data|;
    }
    if |q| < (q[0].frg + 1) % 256 {
      return -1;
    }
    size := 0;
    var ri := 0;
    while ri < |q|
      invariant 0 <= ri <= |q|
      invariant size == DataLen(q[..ri])
      invariant forall i :: 0 <= i < ri ==> q[i].frg != 0
    {
      size := size + |q[ri].data|;
      assert q[..ri + 1][..ri] == q[..ri];
      if q[ri].frg == 0 {
        EndAt(q, ri + 1);
        return;
      }
      ri := ri + 1;
    }
    EndAt(q, |q|);
    assert q[..|q|] == q;
  }

  // -------------------------------------------------------------------- flush

  ghost function Numbers(s: Sender, n: nat): seq<Segment>
    requires n <= |s.queue|
  {
    seq(n, j requires 0 <= j < n => Numbered(s, j))
  }

  lemma NextNumber(s: Sender, n: nat)
    requires n < |s.queue|
    ensures Numbers(s, n + 1) == Numbers(s, n) + [s.queue[n].(sn := W(s.total + n))]
  {
  }

  lemma SenderNext(s: Sender)
    requires SndInv(s)
    ensures s.nxt == W(s.total)
  {
  }

  /** Phase 4 of flush: moves queued segments into the window, numbering them. */
  method AdmitQueued(buf: seq<Segment>, queue: seq<Segment>, una: u32, nxt: u32, cwnd: u32, ghost s: Sender)
      returns (buf': seq<Segment>, queue': seq<Segment>, nxt': u32, count: nat)
    requires SndInv(s) && s.buf == buf && s.queue == queue && s.una == una && s.nxt == nxt && cwnd <= WND_MAX
    ensures count == Admitted(s, cwnd)
    ensures var s' := Admit(s, cwnd); s'.buf == buf' && s'.queue == queue' && s'.nxt == nxt'
  {
    hide SndInv, W, Diff;
    SenderNext(s);
    buf', queue', nxt', count := buf, queue, nxt, 0;
    while true
      invariant count <= |queue| && (count == 0 || |buf| + count <= cwnd)
      invariant queue' == queue[count..] && nxt' == W(s.total + count)
      invariant buf' == buf + Numbers(s, count)
      decreases |queue'|
    {
      AdmittedTest(s, cwnd, count);
      if Diff(nxt', W(una + cwnd)) >= 0 {
        break;
      }
      if |queue'| == 0 {
        break;
      }
      NextNumber(s, count);
      buf' := buf' + [queue'[0].(sn := nxt')];
      queue' := queue'[1..];
      WAdd(s.total + count, 1);
      nxt' := W(nxt' + 1);
      count := count + 1;
    }
    WAdd(s.total, count);
  }

  lemma AdmittedTest(s: Sender, cwnd: u32, count: nat)
    requires SndInv(s) && cwnd <= WND_MAX && (count == 0 || |s.buf| + count <= cwnd)
    ensures Diff(W(s.total + count), W(s.una + cwnd)) >= 0 <==> |s.buf| + count >= cwnd
  {
    DiffIsUnboundedDifference(s.total + count, Base(s) + cwnd);
    WAdd(Base(s), cwnd);
  }

  // -------------------------------------------------------------------- Input

  /** What one incoming segment does to the send side: parse_una and shrink_buf,
      then for an acknowledgement parse_ack and parse_fastack. */
  method SenderSegment(buf: seq<Segment>, una: u32, nxt: u32, fastresend: int, w: Wire, ghost s: Sender, ghost k: State)
      returns (buf': seq<Segment>, una': u32, flush: bool)
    requires SndInv(s) && s.buf == buf && s.una == una && s.nxt == nxt && k.snd == s && k.cfg.fastresend == fastresend
    ensures SenderAfter(s, w) == s.(buf := buf', una := una')
    ensures flush == WantsFlush(k, w)
  {
    var count := CountAcknowledged(buf, w.una, s);
    flush := count > 0;
    buf' := buf[count..];
    if |buf'| > 0 {
      una' := buf'[0].sn;
    } else {
      una' := nxt;
    }
    if w.cmd == CMD_ACK {
      ghost var c := Cumulative(s, w.una);
      CumulativeKeeps(s, w.una);
      ParseAckKeeps(c, w.sn);
      buf' := MarkAck(buf', una', nxt, w.sn, c);
      var due;
      buf', due := BumpOvertaken(buf', una', nxt, w.sn, w.ts, fastresend, ParseAck(c, w.sn));
      flush := flush || due;
    }
  }

  // -------------------------------------------------------------------- Recv

  lemma BytesLen(q: seq<Segment>)
    ensures |Bytes(q)| == DataLen(q)
  {
  }

  lemma {:induction false} PrefixLen(q: seq<Segment>, i: nat, n: nat)
    requires i <= n <= |q|
    ensures DataLen(q[..i]) <= DataLen(q[..n])
  {
    if i < n {
      PrefixLen(q, i, n - 1);
      assert q[..n][..n - 1] == q[..n - 1];
    }
  }

  /** Once PeekSize says so, the leading message is complete and this long. */
  lemma PeekIsLength(q: seq<Segment>)
    requires PeekSize(q) >= 0
    ensures PeekSize(q) == DataLen(q[..MessageEnd(q)]) && 0 < MessageEnd(q)
  {
    if q[0].frg == 0 { assert q[..1][..0] == []; }
  }

  /** The first i segments are in the first n bytes of a buffer that held `was`. */
  ghost predicate Copied(q: seq<Segment>, i: nat, n: nat, b: seq<byte>, was: seq<byte>) {
    && i <= |q| && n == DataLen(q[..i]) && n <= |b| == |was|
    && b[..n] == Bytes(q[..i]) && b[n..] == was[n..]
  }

  lemma CopiedNext(q: seq<Segment>, i: nat, n: nat, b: seq<byte>, was: seq<byte>, b': seq<byte>)
    requires Copied(q, i, n, b, was) && i < |q| && |b'| == |b|
    requires var m := n + |q[i].data|;
             m <= |b| && b'[..n] == b[..n] && b'[n..m] == q[i].data && b'[m..] == b[m..]
    ensures Copied(q, i + 1, n + |q[i].data|, b', was)
  {
    var m := n + |q[i].data|;
    assert q[..i + 1][..i] == q[..i];
    assert b'[..m] == b'[..n] + b'[n..m];
    assert b[m..] == b[n..][m - n..] && was[m..] == was[n..][m - n..];
  }

  /** One round of Recv's loop. */
  method CopyNext(ghost q: seq<Segment>, ghost i: nat, g: Segment, buffer: array<byte>, n: nat, ghost was: seq<byte>) returns (m: nat)
    requires Copied(q, i, n, buffer[..], was) && i < |q| && q[i] == g && n + |g.data| <= buffer.Length
    modifies buffer
    ensures Copied(q, i + 1, m, buffer[..], was)
  {
    hide Copied;
    ghost var b := buffer[..];
    Copy(buffer, n, g.data);
    m := n + |g.data|;
    ghost var b' := buffer[..];
    assert b'[..n] == b[..n] && b'[n..m] == g.data && b'[m..] == b[m..];
    CopiedNext(q, i, n, b, was, b');
  }

  lemma NextLen(q: seq<Segment>, i: nat, end: nat)
    requires i < end <= |q|
    ensures DataLen(q[..i]) + |q[i].data| <= DataLen(q[..end])
  {
    assert q[..i + 1][..i] == q[..i];
    PrefixLen(q, i + 1, end);
  }

  /** Recv's loop: copies the leading message into the caller's buffer. */
  method CopyMessage(q: seq<Segment>, buffer: array<byte>) returns (rest: seq<Segment>, n: nat)
    requires 0 <= PeekSize(q) <= buffer.Length
    modifies buffer
    ensures rest == q[MessageEnd(q)..] && n == PeekSize(q) == |Bytes(q[..MessageEnd(q)])|
    ensures buffer[..n] == Bytes(q[..MessageEnd(q)]) && buffer[n..] == old(buffer[n..])
  {
    hide Bytes, DataLen, PeekSize, MessageEnd;
    ghost var end, was := MessageEnd(q), buffer[..];
    PeekIsLength(q);
    BytesLen(q[..end]);
    NothingCopied(q, was);
    rest, n := q, 0;
    ghost var i := 0;
    while |rest| > 0
      invariant 0 <= i < end && rest == q[i..] && Copied(q, i, n, buffer[..], was)
      invariant forall j :: 0 <= j < i ==> q[j].frg != 0
      decreases |rest|
    {
      var g := rest[0];
      rest := rest[1..];
      NextLen(q, i, end);
      n := CopyNext(q, i, g, buffer, n, was);
      i := i + 1;
      if g.frg == 0 || |rest| == 0 {
        EndAt(q, i);
        break;
      }
      PastEnd(q, i);
    }
  }

  lemma NothingCopied(q: seq<Segment>, was: seq<byte>)
    ensures Copied(q, 0, 0, was, was)
  {
  }

  lemma PastEnd(q: seq<Segment>, i: nat)
    requires i < |q| && forall j :: 0 <= j < i ==> q[j].frg != 0
    ensures i < MessageEnd(q)
  {
  }

  lemma {:induction false} MoveAvailableWnd(r: Receiver)
    ensures MoveAvailable(r).wnd == r.wnd
    decreases |r.buf|
  {
    if r.nxt in r.buf && |r.queue| < r.wnd { MoveAvailableWnd(Moved(r)); }
  }

  method ReceiveMessage(queue: seq<Segment>, h: seq<Segment>, marks: set<u32>, nxt: u32, wnd: u32, tell: bool,
                        buffer: array<byte>, ghost k: State)
      returns (n: int, queue': seq<Segment>, h': seq<Segment>, marks': set<u32>, nxt': u32, tell': bool, ghost r': Receiver)
    requires k.rcv.queue == queue && k.rcv.nxt == nxt && k.rcv.wnd == wnd && k.probe.tell == tell
    requires Holds(h, marks, k.rcv.buf) && InOrder(h, nxt)
    modifies buffer
    ensures Holds(h', marks', r'.buf) && InOrder(h', nxt') && r'.queue == queue' && r'.nxt == nxt' && r'.wnd == wnd
    ensures var r := Recv(k, buffer.Length);
            && r.k == k.(rcv := r', probe := k.probe.(tell := tell')) && n == r.n
            && |r.data| <= buffer.Length && buffer[..|r.data|] == r.data && buffer[|r.data|..] == old(buffer[|r.data|..])
  {
    h', marks', queue', nxt', tell', r' := h, marks, queue, nxt, tell, k.rcv;
    n := MessageSize(queue);
    if n < 0 {
      n := -1;
      return;
    }
    if n > buffer.Length {
      n := -2;
      return;
    }
    var fastRecover := |queue| >= wnd;
    queue', n := CopyMessage(queue, buffer);
    MoveAvailableWnd(k.rcv.(queue := queue'));
    h', marks', queue', nxt', r' := MoveReady(h, marks, queue', nxt, wnd, k.rcv.(queue := queue'));
    if |queue'| < wnd && fastRecover {
      tell' := true;
    }
  }
}
