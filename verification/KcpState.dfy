/** The protocol state of one endpoint and the effect of every operation on it,
    as functions on values.

    The functions are reference definitions: where the code scans a buffer, they
    index it; where the code keeps a heap and a set of marks, they keep a map.
    The imperative engine in module KcpEngine is proved to compute them. */
module KcpState {
  import opened Facts
  import opened Serial

  const OVERHEAD: int := 24
  const CMD_PUSH: byte := 81
  const CMD_ACK: byte := 82
  const CMD_WASK: byte := 83
  const CMD_WINS: byte := 84
  const RTO_NDL: u32 := 30
  const RTO_MIN: u32 := 100
  const RTO_DEF: u32 := 200
  const RTO_MAX: u32 := 60000
  const WND_DEF: u32 := 32
  const MTU_DEF: u32 := 1400
  const INTERVAL: u32 := 100
  const DEADLINK: u32 := 20
  const THRESH_INIT: u32 := 2
  const THRESH_MIN: u32 := 2
  const PROBE_INIT: u32 := 500
  const PROBE_LIMIT: u32 := 120000
  const U32_MAX: u32 := 0xffff_ffff
  const WND_MAX: int := 65535

  type pos32 = x: int | 0 < x < 0x1_0000_0000 witness 1
  type nat31 = x: int | 0 <= x < 0x8000_0000

  /** The i-th reading of the millisecond clock within one operation. */
  function Now(clock: seq<u32>, i: nat): u32 { if i < |clock| then clock[i] else 0 }

  function Min(a: int, b: int): int { if a <= b then a else b }
  function Max(a: int, b: int): int { if a <= b then b else a }

  // ---------------------------------------------------------------- entities

  /** A segment.  `conv` and `cmd` are constant for data segments and left out. */
  datatype Segment = Segment(frg: byte, wnd: u16, ts: u32, sn: u32, una: u32,
                             rto: u32, xmit: u32, resendts: u32, fastack: u32,
                             acked: bool, data: seq<byte>)

  /** A segment as it travels: header fields and payload. */
  datatype Wire = Wire(conv: u32, cmd: byte, frg: byte, wnd: u16, ts: u32, sn: u32, una: u32,
                       data: seq<byte>)

  /** A wire segment together with the unbounded numbers its 32-bit fields stand
      for: `id` for `sn` and `unaId` for `una`.  They are history: nothing the
      endpoint computes depends on them. */
  datatype Tagged = Tagged(w: Wire, id: int, unaId: int)

  /** A pending acknowledgement; `id` is the unbounded number behind `sn`. */
  datatype AckItem = AckItem(sn: u32, ts: u32, id: int)

  datatype Config = Config(conv: u32, mtu: u32, mss: pos32, sndWnd: u32, nodelay: u32, interval: u32,
                           fastresend: int, nocwnd: bool, stream: bool, deadLink: u32, minrto: u32)

  /** `total` counts the sequence numbers ever assigned; `nxt` is its truncation. */
  datatype Sender = Sender(una: u32, nxt: u32, buf: seq<Segment>, queue: seq<Segment>, total: nat)

  /** `total` counts the segments ever moved to the queue; `nxt` is its truncation. */
  datatype Receiver = Receiver(nxt: u32, wnd: u32, queue: seq<Segment>, buf: map<u32, Segment>, total: nat)

  datatype Congestion = Congestion(cwnd: u32, ssthresh: u32, incr: u32, rmtWnd: u16)
  datatype Timing = Timing(srtt: nat31, rttvar: nat31, rto: u32)
  datatype Probe = Probe(ask: bool, tell: bool, ts: u32, wait: u32)

  datatype State = State(cfg: Config, snd: Sender, rcv: Receiver, cong: Congestion, rtt: Timing,
                         probe: Probe, acks: seq<AckItem>, dead: bool)

  function Fresh(conv: u32): State {
    State(Config(conv, MTU_DEF, MTU_DEF - OVERHEAD, WND_DEF, 0, INTERVAL, 0, false, false, DEADLINK, RTO_MIN),
          Sender(0, 0, [], [], 0), Receiver(0, WND_DEF, [], map[], 0),
          Congestion(0, THRESH_INIT, 0, WND_DEF), Timing(0, 0, RTO_DEF), Probe(false, false, 0, 0), [], false)
  }

  // ------------------------------------------------------ window invariants

  /** The number of the oldest segment in the send buffer. */
  function Base(s: Sender): int { s.total - |s.buf| }

  /** The send buffer holds exactly the numbers una..nxt-1, at most 65535 of them. */
  ghost predicate SndInv(s: Sender) {
    && |s.buf| <= s.total
    && |s.buf| <= WND_MAX
    && s.nxt == W(s.total)
    && s.una == W(Base(s))
    && forall i :: 0 <= i < |s.buf| ==> s.buf[i].sn == W(Base(s) + i)
  }

  /** How far ahead of the next expected number `sn` lies, going round the circle. */
  function Offset(r: Receiver, sn: u32): (d: int) { Ahead(r.nxt, sn) }

  /** The receive queue is a consecutive run ending just before `nxt`; everything
      buffered lies less than half the range ahead. */
  ghost predicate RcvInv(r: Receiver) {
    && |r.queue| <= r.total
    && r.nxt == W(r.total)
    && (forall i :: 0 <= i < |r.queue| ==> r.queue[i].sn == W(r.total - |r.queue| + i))
    && (forall sn :: sn in r.buf ==> r.buf[sn].sn == sn && Offset(r, sn) < HALF)
  }

  // ------------------------------------------------------------- send side

  /** How many segments a cumulative acknowledgement removes. */
  function Acknowledged(s: Sender, una: u32): (n: nat)
    ensures n <= |s.buf|
  {
    Max(0, Min(Diff(una, s.una), |s.buf|))
  }

  /** parse_una followed by shrink_buf. */
  function Cumulative(s: Sender, una: u32): Sender {
    var rest := s.buf[Acknowledged(s, una)..];
    s.(buf := rest, una := if rest != [] then rest[0].sn else s.nxt)
  }

  /** Position of `sn` in the send buffer; beyond its end when absent. */
  function Position(s: Sender, sn: u32): (i: nat) { Ahead(s.una, sn) }

  function MarkAcked(g: Segment): Segment { g.(acked := true, data := []) }

  function ParseAck(s: Sender, sn: u32): Sender {
    var i := Position(s, sn);
    if i < |s.buf| then s.(buf := s.buf[i := MarkAcked(s.buf[i])]) else s
  }

  /** A segment sent no later than the acknowledged one, and not yet resent
      because of such acknowledgements, is counted as overtaken. */
  predicate Overtaken(g: Segment, ts: u32) { Diff(g.ts, ts) <= 0 && g.fastack != U32_MAX }

  function Bump(g: Segment, ts: u32): Segment {
    if Overtaken(g, ts) then g.(fastack := g.fastack + 1) else g
  }

  function ParseFastack(s: Sender, sn: u32, ts: u32): Sender {
    var n := Position(s, sn);
    if n < |s.buf| then s.(buf := seq(|s.buf|, i requires 0 <= i < |s.buf| => if i < n then Bump(s.buf[i], ts) else s.buf[i]))
    else s
  }

  predicate FastackDue(s: Sender, sn: u32, ts: u32, fastresend: int) {
    var n := Position(s, sn);
    n < |s.buf| && exists i :: 0 <= i < n && Overtaken(s.buf[i], ts) && s.buf[i].fastack + 1 >= W(fastresend)
  }

  /** Number of queued segments the window admits. */
  function Admitted(s: Sender, cwnd: u32): (n: nat)
    ensures n <= |s.queue|
  {
    Min(|s.queue|, Max(0, cwnd - |s.buf|))
  }

  function Numbered(s: Sender, j: nat): Segment
    requires j < |s.queue|
  {
    s.queue[j].(sn := W(s.total + j))
  }

  function Admit(s: Sender, cwnd: u32): Sender {
    var n := Admitted(s, cwnd);
    s.(nxt := W(s.nxt + n), total := s.total + n, queue := s.queue[n..],
       buf := s.buf + seq(n, j requires 0 <= j < n => Numbered(s, j)))
  }

  // ---------------------------------------------------------- receive side

  function Received(w: Wire): Segment {
    Segment(w.frg, w.wnd, w.ts, w.sn, w.una, 0, 0, 0, 0, false, w.data)
  }

  /** Moves the run starting at `nxt` from the buffer to the queue while there is room. */
  function MoveAvailable(r: Receiver): Receiver
    decreases |r.buf|
  {
    if r.nxt in r.buf && |r.queue| < r.wnd then
      MoveAvailable(Moved(r))
    else r
  }

  function Moved(r: Receiver): (r': Receiver)
    requires r.nxt in r.buf
    ensures |r'.buf| < |r.buf|
  {
    assert r.nxt in r.buf.Keys && (r.buf - {r.nxt}).Keys == r.buf.Keys - {r.nxt};
    r.(queue := r.queue + [r.buf[r.nxt]], buf := r.buf - {r.nxt}, nxt := W(r.nxt + 1), total := r.total + 1)
  }

  /** Below the top of the receive window: acknowledged, possibly buffered. */
  predicate BelowTop(nxt: u32, wnd: u32, sn: u32) { Diff(sn, W(nxt + wnd)) < 0 }

  predicate BelowWindowTop(r: Receiver, sn: u32) { BelowTop(r.nxt, r.wnd, sn) }

  predicate InWindow(r: Receiver, sn: u32) { BelowWindowTop(r, sn) && Diff(sn, r.nxt) >= 0 }

  function ParseData(r: Receiver, g: Segment): Receiver {
    if !InWindow(r, g.sn) then r
    else MoveAvailable(if g.sn in r.buf then r else r.(buf := r.buf[g.sn := g]))
  }

  function WndUnused(r: Receiver): u16 {
    if |r.queue| < r.wnd then (r.wnd - |r.queue|) % 0x1_0000 else 0
  }

  // ---------------------------------------------------------------- Recv

  function DataLen(q: seq<Segment>): nat {
    if q == [] then 0 else DataLen(q[..|q|-1]) + |q[|q|-1].data|
  }

  function Bytes(q: seq<Segment>): seq<byte> {
    if q == [] then [] else Bytes(q[..|q|-1]) + q[|q|-1].data
  }

  /** Length of the leading message: through the first segment with frg 0, or
      everything when there is none. */
  function MessageEnd(q: seq<Segment>): (n: nat)
    ensures n <= |q|
    ensures q != [] ==> 0 < n
    ensures forall i :: 0 <= i < n - 1 ==> q[i].frg != 0
    ensures n < |q| ==> 0 < n && q[n - 1].frg == 0
  {
    if q == [] then 0 else if q[0].frg == 0 then 1 else 1 + MessageEnd(q[1..])
  }

  function PeekSize(q: seq<Segment>): int {
    if q == [] then -1
    else if q[0].frg == 0 then |q[0].data|
    else if |q| < (q[0].frg + 1) % 256 then -1
    else DataLen(q[..MessageEnd(q)])
  }

  datatype RecvResult = RecvResult(k: State, n: int, data: seq<byte>)

  function Recv(k: State, room: nat): RecvResult {
    var size := PeekSize(k.rcv.queue);
    if size < 0 then RecvResult(k, -1, [])
    else if size > room then RecvResult(k, -2, [])
    else
      var n := MessageEnd(k.rcv.queue);
      var r := MoveAvailable(k.rcv.(queue := k.rcv.queue[n..]));
      var tell := |k.rcv.queue| >= k.rcv.wnd && |r.queue| < r.wnd;
      RecvResult(k.(rcv := r, probe := if tell then k.probe.(tell := true) else k.probe), size,
                 Bytes(k.rcv.queue[..n]))
  }

  // ---------------------------------------------------------------- Send

  function NewSegment(frg: byte, data: seq<byte>): Segment {
    Segment(frg, 0, 0, 0, 0, 0, 0, 0, 0, false, data)
  }

  /** Cuts `buffer` into `count` segments of at most `mss` bytes, numbered down to 0. */
  function Fragments(buffer: seq<byte>, mss: u32, count: nat, stream: bool): (q: seq<Segment>)
    requires count <= 255
    ensures |q| == count
  {
    if count == 0 then []
    else
      var size := Min(|buffer|, mss);
      [NewSegment(if stream then 0 else count - 1, buffer[..size])] + Fragments(buffer[size..], mss, count - 1, stream)
  }

  function FragmentCount(len: nat, mss: pos32): nat {
    if len <= mss then 1 else (len + mss - 1) / mss
  }

  /** Bytes that stream mode appends to the last queued segment. */
  function Extension(q: seq<Segment>, len: nat, mss: pos32, stream: bool): (n: nat)
    ensures n <= len
    ensures n > 0 ==> q != []
  {
    if stream && q != [] && |q[|q|-1].data| < mss then Min(len, mss - |q[|q|-1].data|) else 0
  }

  function Extended(q: seq<Segment>, more: seq<byte>): seq<Segment> {
    if more == [] || q == [] then q else q[|q|-1 := q[|q|-1].(data := q[|q|-1].data + more)]
  }

  datatype Queued = Queued(queue: seq<Segment>, code: int)

  /** What Send does to the queue, and what it returns. */
  function Enqueue(q: seq<Segment>, buffer: seq<byte>, mss: pos32, stream: bool): Queued {
    if buffer == [] then Queued(q, -1)
    else
      var x := Extension(q, |buffer|, mss, stream);
      var q' := Extended(q, buffer[..x]);
      var rest := buffer[x..];
      if stream && rest == [] then Queued(q', 0)
      else
        var count := FragmentCount(|rest|, mss);
        if count > 255 then Queued(q', -2)
        else Queued(q' + Fragments(rest, mss, count, stream), 0)
  }

  datatype SendResult = SendResult(k: State, code: int)

  function Send(k: State, buffer: seq<byte>): SendResult {
    var r := Enqueue(k.snd.queue, buffer, k.cfg.mss, k.cfg.stream);
    SendResult(k.(snd := k.snd.(queue := r.queue)), r.code)
  }

  // ---------------------------------------------------------------- Input

  /** Smoothed round-trip time and timeout. */
  function UpdateAck(k: State, rtt: nat31): State {
    var t := k.rtt;
    var t' :=
      if t.srtt == 0 then t.(srtt := rtt, rttvar := rtt / 2)
      else
        var delta := rtt - t.srtt;
        var srtt := t.srtt + delta / 8;
        var dev := if delta < 0 then -delta else delta;
        var rttvar := t.rttvar + (dev - t.rttvar) / (if rtt < srtt - t.rttvar then 32 else 4);
        t.(srtt := srtt, rttvar := rttvar);
    var rto := W(t'.srtt + Max(k.cfg.interval, W(4 * t'.rttvar)));
    k.(rtt := t'.(rto := Min(Max(k.cfg.minrto, rto), RTO_MAX)))
  }

  /** What one segment of a packet does, and what it asks for at the end. */
  datatype Absorbed = Absorbed(k: State, flush: bool, acked: bool, latest: u32)

  function SenderAfter(s: Sender, w: Wire): Sender {
    var c := Cumulative(s, w.una);
    if w.cmd == CMD_ACK then ParseFastack(ParseAck(c, w.sn), w.sn, w.ts) else c
  }

  function ReceiverAfter(r: Receiver, w: Wire): Receiver {
    if w.cmd == CMD_PUSH && BelowWindowTop(r, w.sn) then ParseData(r, Received(w)) else r
  }

  function AcksAfter(k: State, t: Tagged): seq<AckItem> {
    if t.w.cmd == CMD_PUSH && BelowWindowTop(k.rcv, t.w.sn) then k.acks + [AckItem(t.w.sn, t.w.ts, t.id)] else k.acks
  }

  /** The window slid, or some overtaken segment reached the resend threshold. */
  predicate WantsFlush(k: State, w: Wire) {
    || Acknowledged(k.snd, w.una) > 0
    || (w.cmd == CMD_ACK && FastackDue(ParseAck(Cumulative(k.snd, w.una), w.sn), w.sn, w.ts, k.cfg.fastresend))
  }

  function AbsorbOne(a: Absorbed, t: Tagged, regular: bool): Absorbed {
    var k, w := a.k, t.w;
    Absorbed(k.(cong := if regular then k.cong.(rmtWnd := w.wnd) else k.cong,
                snd := SenderAfter(k.snd, w), rcv := ReceiverAfter(k.rcv, w), acks := AcksAfter(k, t),
                probe := if w.cmd == CMD_WASK then k.probe.(tell := true) else k.probe),
             a.flush || WantsFlush(k, w), a.acked || w.cmd == CMD_ACK, if w.cmd == CMD_ACK then w.ts else a.latest)
  }

  function Absorb(k: State, ts: seq<Tagged>, regular: bool): Absorbed
  {
    if ts == [] then Absorbed(k, false, false, 0)
    else AbsorbOne(Absorb(k, ts[..|ts|-1], regular), ts[|ts|-1], regular)
  }

  /** Division with the facts the solver needs to know about it. */
  function Div(a: u32, b: u32): (q: u32)
    requires b > 0
    ensures q * b <= a < q * b + b
  {
    DivBounds(a, b, a / b);
    a / b
  }

  lemma DivBounds(a: int, b: int, q: int)
    requires 0 <= a && 0 < b && q * b <= a < q * b + b
    ensures 0 <= q <= a
  {
    assert (-q - 1) * b == -(q * b) - b && q * (b - 1) == q * b - q;
    if q < 0 { MulNonNegative(-q - 1, b); } else { MulNonNegative(q, b - 1); }
  }

  /** Congestion avoidance: about one mss more for every window of bytes. */
  function Avoidance(incr: u32, mss: pos32): u32 {
    var low := if incr < mss then mss else incr;
    W(low + Div(W(mss * mss), low) + Div(mss, 16))
  }

  function Avoided(c: Congestion, mss: pos32): Congestion {
    var incr := Avoidance(c.incr, mss);
    if W(W(c.cwnd + 1) * mss) <= incr then c.(cwnd := Div(W(incr + mss - 1), mss), incr := incr) else c.(incr := incr)
  }

  function Capped(c: Congestion, mss: pos32): Congestion {
    if c.cwnd > c.rmtWnd then c.(cwnd := c.rmtWnd, incr := W(c.rmtWnd * mss)) else c
  }

  /** Growth of the congestion window after an acknowledgement moved una. */
  function Grow(c: Congestion, mss: pos32): Congestion {
    if c.cwnd >= c.rmtWnd then c
    else if c.cwnd < c.ssthresh then Capped(c.(cwnd := W(c.cwnd + 1), incr := W(c.incr + mss)), mss)
    else Capped(Avoided(c, mss), mss)
  }

  /** The part of Input after the parse loop and before the final flush. */
  function Settle(a: Absorbed, una: u32, regular: bool, now: u32): State
  {
    var k := if a.acked && regular && Diff(now, a.latest) >= 0 then UpdateAck(a.k, Diff(now, a.latest)) else a.k;
    if !k.cfg.nocwnd && Diff(k.snd.una, una) > 0 then k.(cong := Grow(k.cong, k.cfg.mss)) else k
  }

  // ---------------------------------------------------------------- flush

  /** What flush asks makeSpace for: room for a suppressed ACK, or a segment. */
  datatype Item = Gap | Put(t: Tagged)

  function Space(i: Item): int { match i case Gap => OVERHEAD case Put(t) => OVERHEAD + |t.w.data| }

  function Size(ts: seq<Tagged>): nat {
    if ts == [] then 0 else Size(ts[..|ts|-1]) + OVERHEAD + |ts[|ts|-1].w.data|
  }

  /** Packets already handed to the output callback and the one being filled. */
  datatype Packing = Packing(done: seq<seq<Tagged>>, cur: seq<Tagged>)

  /** Hands the packet over when `space` more bytes would exceed the MTU. */
  function MakeSpace(mtu: u32, p: Packing, space: int): Packing {
    if Size(p.cur) + space > mtu then Packing(p.done + [p.cur], []) else p
  }

  function PackOne(mtu: u32, p: Packing, i: Item): Packing {
    var p' := MakeSpace(mtu, p, Space(i));
    match i case Gap => p' case Put(t) => p'.(cur := p'.cur + [t])
  }

  function Pack(mtu: u32, p: Packing, items: seq<Item>): Packing {
    if items == [] then p else PackOne(mtu, Pack(mtu, p, items[..|items|-1]), items[|items|-1])
  }

  function Packets(mtu: u32, items: seq<Item>): seq<seq<Tagged>> {
    var p := Pack(mtu, Packing([], []), items);
    if p.cur == [] then p.done else p.done + [p.cur]
  }

  /** An acknowledgement is sent unless a later una of the same flush covers it. */
  predicate AckSent(k: State, i: nat)
    requires i < |k.acks|
  {
    Diff(k.acks[i].sn, k.rcv.nxt) >= 0 || i == |k.acks| - 1
  }

  function Control(k: State, cmd: byte, a: AckItem): Tagged {
    Tagged(Wire(k.cfg.conv, cmd, 0, WndUnused(k.rcv), a.ts, a.sn, k.rcv.nxt, []), a.id, k.rcv.total)
  }

  function AckItems(k: State): seq<Item> {
    seq(|k.acks|, i requires 0 <= i < |k.acks| => if AckSent(k, i) then Put(Control(k, CMD_ACK, k.acks[i])) else Gap)
  }

  /** Window probes carry whatever sn and ts the last ACK left in the header. */
  function LastAck(k: State): AckItem { if k.acks == [] then AckItem(0, 0, 0) else k.acks[|k.acks|-1] }

  function NextProbe(k: State, now: u32): Probe {
    var p := k.probe;
    if k.cong.rmtWnd != 0 then p.(ts := 0, wait := 0)
    else if p.wait == 0 then p.(wait := PROBE_INIT, ts := W(now + PROBE_INIT))
    else if Diff(now, p.ts) >= 0 then
      var low := if p.wait < PROBE_INIT then PROBE_INIT else p.wait;
      var wait := Min(W(low + low / 2), PROBE_LIMIT);
      p.(wait := wait, ts := W(now + wait), ask := true)
    else p
  }

  function ProbeItems(k: State, p: Probe): seq<Item> {
    (if p.ask then [Put(Control(k, CMD_WASK, LastAck(k)))] else []) +
    (if p.tell then [Put(Control(k, CMD_WINS, LastAck(k)))] else [])
  }

  /** min(snd_wnd, rmt_wnd) and, with congestion control, cwnd. */
  function EffectiveWindow(k: State): (w: u32)
    ensures w <= k.cfg.sndWnd && w <= k.cong.rmtWnd && (k.cfg.nocwnd || w <= k.cong.cwnd)
  {
    var w := Min(k.cfg.sndWnd, k.cong.rmtWnd);
    if k.cfg.nocwnd then w else Min(k.cong.cwnd, w)
  }

  /** Why a segment is sent in a flush. */
  datatype Kind = Skip | First | Fast | Early | Timeout

  /** What the transmit loop reads besides the segment. */
  datatype TxContext = TxContext(cfg: Config, rto: u32, wnd: u16, una: u32, unaId: int, base: int,
                                 resent: u32, newSegs: nat, clock: seq<u32>)

  function SendKind(g: Segment, current: u32, c: TxContext): Kind {
    if g.acked then Skip
    else if g.xmit == 0 then First
    else if g.fastack >= c.resent && g.fastack != U32_MAX then Fast
    else if g.fastack > 0 && g.fastack != U32_MAX && c.newSegs == 0 then Early
    else if Diff(current, g.resendts) >= 0 then Timeout
    else Skip
  }

  /** The segment after being scheduled, before it is stamped and sent. */
  function Scheduled(g: Segment, kind: Kind, current: u32, c: TxContext): Segment {
    match kind
    case Skip => g
    case First => g.(rto := c.rto, resendts := W(current + c.rto))
    case Timeout =>
      var rto := W(g.rto + (if c.cfg.nodelay == 0 then c.rto else c.rto / 2));
      g.(rto := rto, fastack := 0, resendts := W(current + rto))
    case _ => g.(rto := c.rto, fastack := U32_MAX, resendts := W(current + c.rto))
  }

  function Stamped(g: Segment, now: u32, c: TxContext): Segment {
    g.(xmit := W(g.xmit + 1), ts := now, wnd := c.wnd, una := c.una)
  }

  function PushWire(g: Segment, id: int, c: TxContext): Tagged {
    Tagged(Wire(c.cfg.conv, CMD_PUSH, g.frg, g.wnd, g.ts, g.sn, g.una, g.data), id, c.unaId)
  }

  datatype Tx = Tx(buf: seq<Segment>, kinds: seq<Kind>, items: seq<Item>, current: u32,
                   change: nat, lost: nat, next: u32, dead: bool)

  function TxOne(t: Tx, g: Segment, i: nat, c: TxContext): Tx {
    if g.acked then t.(buf := t.buf + [g], kinds := t.kinds + [Skip])
    else
      var kind := SendKind(g, t.current, c);
      var sched := Scheduled(g, kind, t.current, c);
      var current := if kind == Skip then t.current else Now(c.clock, 3 + i);
      var g' := if kind == Skip then sched else Stamped(sched, current, c);
      var wait := Diff(g'.resendts, current);
      Tx(t.buf + [g'], t.kinds + [kind],
         if kind == Skip then t.items else t.items + [Put(PushWire(g', c.base + i, c))],
         current,
         if kind == Fast || kind == Early then t.change + 1 else t.change,
         if kind == Timeout then t.lost + 1 else t.lost,
         if 0 < wait < t.next then wait else t.next,
         t.dead || (kind != Skip && g'.xmit >= c.cfg.deadLink))
  }

  /** Processes the first n segments of the send buffer. */
  function Transmit(buf: seq<Segment>, n: nat, c: TxContext): (t: Tx)
    requires n <= |buf|
    ensures |t.buf| == |t.kinds| == n
  {
    if n == 0 then Tx([], [], [], Now(c.clock, 2), 0, 0, c.cfg.interval, false)
    else TxOne(Transmit(buf, n - 1, c), buf[n-1], n - 1, c)
  }

  function Resent(cfg: Config): u32 { if cfg.fastresend <= 0 then U32_MAX else W(cfg.fastresend) }

  /** Congestion window after the transmit loop. */
  function Penalize(c: Congestion, mss: u32, inflight: u32, window: u32, resent: u32, change: nat, lost: nat): Congestion {
    var c1 :=
      if change > 0 then
        var ssthresh := Max(inflight / 2, THRESH_MIN);
        var cwnd := W(ssthresh + resent);
        c.(ssthresh := ssthresh, cwnd := cwnd, incr := W(cwnd * mss))
      else c;
    var c2 := if lost > 0 then c1.(ssthresh := Max(window / 2, THRESH_MIN), cwnd := 1, incr := mss) else c1;
    if c2.cwnd < 1 then c2.(cwnd := 1, incr := mss) else c2
  }

  datatype FlushResult = FlushResult(k: State, packets: seq<seq<Tagged>>, next: u32, kinds: seq<Kind>)

  function FlushContext(k: State, clock: seq<u32>): TxContext {
    TxContext(k.cfg, k.rtt.rto, WndUnused(k.rcv), k.rcv.nxt, k.rcv.total, Base(k.snd), Resent(k.cfg),
              Admitted(k.snd, EffectiveWindow(k)), clock)
  }

  function FlushTx(k: State, full: bool, clock: seq<u32>): Tx {
    var c := FlushContext(k, clock);
    var buf := Admit(k.snd, EffectiveWindow(k)).buf;
    if full then Transmit(buf, |buf|, c)
    else Tx(buf, seq(|buf|, _ => Skip), [], Now(clock, 2), 0, 0, k.cfg.interval, false)
  }

  function FlushItems(k: State, full: bool, clock: seq<u32>): seq<Item> {
    AckItems(k) + ProbeItems(k, NextProbe(k, Now(clock, 1))) + FlushTx(k, full, clock).items
  }

  function Flush(k: State, full: bool, clock: seq<u32>): FlushResult {
    var window := EffectiveWindow(k);
    var snd := Admit(k.snd, window);
    var tx := FlushTx(k, full, clock);
    var cong := if k.cfg.nocwnd then k.cong
                else Penalize(k.cong, k.cfg.mss, W(snd.nxt - snd.una), window, Resent(k.cfg), tx.change, tx.lost);
    FlushResult(k.(snd := snd.(buf := tx.buf), cong := cong, acks := [], dead := k.dead || tx.dead,
                   probe := NextProbe(k, Now(clock, 1)).(ask := false, tell := false)),
                Packets(k.cfg.mtu, FlushItems(k, full, clock)), tx.next, tx.kinds)
  }

  /** Which flush, if any, ends Input. */
  datatype FlushChoice = NoFlush | AckOnly | Full

  function InputFlush(flush: bool, k: State, ackNoDelay: bool): FlushChoice {
    if flush then Full
    else if |k.acks| >= k.cfg.mtu / OVERHEAD then AckOnly
    else if ackNoDelay && |k.acks| > 0 then AckOnly
    else NoFlush
  }

  datatype InputResult = InputResult(k: State, code: int, packets: seq<seq<Tagged>>, kinds: seq<Kind>)

  /** Input up to the final flush. */
  function BeforeFlush(k: State, ts: seq<Tagged>, regular: bool, now: u32): State
  {
    Settle(Absorb(k, ts, regular), k.snd.una, regular, now)
  }

  /** Input on an already parsed packet; `code` is the parse loop's verdict. */
  function Input(k: State, ts: seq<Tagged>, code: int, regular: bool, ackNoDelay: bool, clock: seq<u32>): InputResult
  {
    if code != 0 then InputResult(Absorb(k, ts, regular).k, code, [], [])
    else
      var k' := BeforeFlush(k, ts, regular, Now(clock, 0));
      var choice := InputFlush(Absorb(k, ts, regular).flush, k', ackNoDelay);
      if choice.NoFlush? then InputResult(k', 0, [], [])
      else var f := Flush(k', choice.Full?, clock); InputResult(f.k, 0, f.packets, f.kinds)
  }

  lemma AbsorbKeepsConfig(k: State, ts: seq<Tagged>, regular: bool)
    ensures Absorb(k, ts, regular).k.cfg == k.cfg
  {
    if ts != [] { AbsorbKeepsConfig(k, ts[..|ts|-1], regular); }
  }

  // -------------------------------------------------------- configuration

  function NoDelay(k: State, nodelay: int, interval: int, resend: int, nc: int): State {
    var c1 := if nodelay >= 0 then k.cfg.(nodelay := W(nodelay), minrto := if nodelay != 0 then RTO_NDL else RTO_MIN) else k.cfg;
    var c2 := if interval >= 0 then c1.(interval := Max(10, Min(interval, 5000))) else c1;
    var c3 := if resend >= 0 then c2.(fastresend := Diff(W(resend), 0)) else c2;
    k.(cfg := if nc >= 0 then c3.(nocwnd := W(nc) != 0) else c3)
  }

  function WndSize(k: State, sndwnd: int, rcvwnd: int): State {
    var k1 := if sndwnd > 0 then k.(cfg := k.cfg.(sndWnd := W(sndwnd))) else k;
    if rcvwnd > 0 then k1.(rcv := k1.rcv.(wnd := W(rcvwnd))) else k1
  }

  function SetMtu(k: State, mtu: u32): State
    requires mtu > OVERHEAD
  {
    k.(cfg := k.cfg.(mtu := mtu, mss := mtu - OVERHEAD))
  }

  function ResetRTO(k: State, now: u32): State {
    k.(snd := k.snd.(buf := seq(|k.snd.buf|, i requires 0 <= i < |k.snd.buf| => k.snd.buf[i].(rto := k.rtt.rto, resendts := now))))
  }
}
