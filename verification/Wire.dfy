/** Segment headers on the wire: 24 bytes, little-endian, followed by the payload. */
module WireFormat {
  import opened Facts
  import opened Serial
  import opened KcpState

  // ------------------------------------------------------ little-endian numbers

  function Put16(x: u16): (b: seq<byte>)
    ensures |b| == 2
  {
    [x % 256, x / 256]
  }

  function Put32(x: u32): (b: seq<byte>)
    ensures |b| == 4
  {
    [x % 256, x / 256 % 256, x / 256 / 256 % 256, x / 256 / 256 / 256]
  }

  function Get16(b: seq<byte>): u16
    requires |b| >= 2
  {
    b[0] + 256 * (b[1] as int)
  }

  function Get32(b: seq<byte>): u32
    requires |b| >= 4
  {
    b[0] + 256 * (b[1] + 256 * (b[2] + 256 * (b[3] as int) as int) as int)
  }

  lemma GetPut32(x: u32, rest: seq<byte>)
    ensures Get32(Put32(x) + rest) == x
  {
  }

  lemma GetPut16(x: u16, rest: seq<byte>)
    ensures Get16(Put16(x) + rest) == x
  {
  }

  // ---------------------------------------------------------------- segments

  function Header(w: Wire, len: u32): (b: seq<byte>)
    ensures |b| == OVERHEAD
  {
    Put32(w.conv) + [w.cmd, w.frg] + Put16(w.wnd) + Put32(w.ts) + Put32(w.sn) + Put32(w.una) + Put32(len)
  }

  /** The payload length is truncated to 32 bits, as the header field is. */
  function Encode(w: Wire): (b: seq<byte>)
    ensures |b| == OVERHEAD + |w.data|
  {
    Header(w, W(|w.data|)) + w.data
  }

  function EncodeAll(ts: seq<Tagged>): (b: seq<byte>)
    ensures |b| == Size(ts)
  {
    if ts == [] then [] else EncodeAll(ts[..|ts|-1]) + Encode(ts[|ts|-1].w)
  }

  function EncodePackets(ps: seq<seq<Tagged>>): (b: seq<seq<byte>>)
    ensures |b| == |ps|
    ensures forall i :: 0 <= i < |b| ==> b[i] == EncodeAll(ps[i])
  {
    seq(|ps|, i requires 0 <= i < |ps| => EncodeAll(ps[i]))
  }

  /** The segments the parse loop accepts before it stops, and Input's verdict. */
  datatype Parsed = Parsed(segs: seq<Wire>, code: int)

  predicate KnownCmd(cmd: byte) { cmd == CMD_PUSH || cmd == CMD_ACK || cmd == CMD_WASK || cmd == CMD_WINS }

  /** Header fields of the segment at the front of `d`, without its payload. */
  function Head(d: seq<byte>): Wire
    requires |d| >= OVERHEAD
  {
    Wire(Get32(d), d[4], d[5], Get16(d[6..]), Get32(d[8..]), Get32(d[12..]), Get32(d[16..]), [])
  }

  function Length(d: seq<byte>): u32
    requires |d| >= OVERHEAD
  {
    Get32(d[20..])
  }

  /** The verdict on the segment at the front of `d`; 0 accepts it. */
  function Verdict(conv: u32, d: seq<byte>): int
    requires |d| >= OVERHEAD
  {
    if Head(d).conv != conv then -1
    else if |d| - OVERHEAD < Length(d) then -2
    else if !KnownCmd(Head(d).cmd) then -3
    else 0
  }

  function Leading(conv: u32, d: seq<byte>): Wire
    requires |d| >= OVERHEAD && Verdict(conv, d) == 0
  {
    Head(d).(data := d[OVERHEAD..OVERHEAD + Length(d)])
  }

  function ParseLoop(conv: u32, d: seq<byte>): Parsed
    decreases |d|
  {
    if |d| < OVERHEAD then Parsed([], 0)
    else if Verdict(conv, d) != 0 then Parsed([], Verdict(conv, d))
    else
      var p := ParseLoop(conv, d[OVERHEAD + Length(d)..]);
      Parsed([Leading(conv, d)] + p.segs, p.code)
  }

  function Parse(conv: u32, d: seq<byte>): Parsed {
    if |d| < OVERHEAD then Parsed([], -1) else ParseLoop(conv, d)
  }

  // -------------------------------------------------------------- round trip

  function Wires(ts: seq<Tagged>): seq<Wire> {
    seq(|ts|, i requires 0 <= i < |ts| => ts[i].w)
  }

  predicate Sendable(conv: u32, w: Wire) {
    w.conv == conv && KnownCmd(w.cmd) && |w.data| < RANGE
  }

  ghost predicate AllSendable(conv: u32, ts: seq<Tagged>) {
    forall i :: 0 <= i < |ts| ==> Sendable(conv, ts[i].w)
  }

  lemma Parts(head: seq<byte>, data: seq<byte>, rest: seq<byte>)
    ensures var d := head + (data + rest);
            d[|head|..|head| + |data|] == data && d[|head| + |data|..] == rest
  {
  }

  /** Parsing what was encoded, followed by anything, gives the segment back and
      continues right behind it. */
  lemma ParseEncoded(conv: u32, w: Wire, rest: seq<byte>)
    requires Sendable(conv, w)
    ensures var d := Encode(w) + rest;
            && |d| >= OVERHEAD && Verdict(conv, d) == 0 && Leading(conv, d) == w
            && OVERHEAD + Length(d) <= |d| && d[OVERHEAD + Length(d)..] == rest
  {
    hide Header, Head, Length, W;
    var d, len := Encode(w) + rest, W(|w.data|);
    assert len == |w.data| by { Unwrapped(|w.data|); }
    assert d == Header(w, len) + (w.data + rest);
    HeaderFields(w, len, w.data + rest);
    Parts(Header(w, len), w.data, rest);
  }

  lemma HeaderFields(w: Wire, len: u32, tail: seq<byte>)
    ensures var d := Header(w, len) + tail; Head(d) == w.(data := []) && Length(d) == len
  {
    var d := Header(w, len) + tail;
    var t20 := Put32(len) + tail;
    var t16 := Put32(w.una) + t20;
    var t12 := Put32(w.sn) + t16;
    var t8 := Put32(w.ts) + t12;
    var t6 := Put16(w.wnd) + t8;
    assert d == Put32(w.conv) + ([w.cmd, w.frg] + t6);
    assert d[6..] == t6;
    assert d[8..] == t8;
    assert d[12..] == t12;
    assert d[16..] == t16;
    assert d[20..] == t20;
    GetPut32(w.conv, [w.cmd, w.frg] + t6); GetPut16(w.wnd, t8); GetPut32(w.ts, t12);
    GetPut32(w.sn, t16); GetPut32(w.una, t20); GetPut32(len, tail);
  }

  function Prepend(ws: seq<Wire>, p: Parsed): Parsed { Parsed(ws + p.segs, p.code) }

  lemma PrependAppend(ws: seq<Wire>, w: Wire, p: Parsed)
    ensures Prepend(ws, Prepend([w], p)) == Prepend(ws + [w], p)
  {
    assert ws + ([w] + p.segs) == ws + [w] + p.segs;
  }

  lemma ParseLoopStep(conv: u32, w: Wire, rest: seq<byte>)
    requires Sendable(conv, w)
    ensures ParseLoop(conv, Encode(w) + rest) == Prepend([w], ParseLoop(conv, rest))
  {
    ParseEncoded(conv, w, rest);
  }

  lemma {:induction false} EncodeAllLast(ts: seq<Tagged>, rest: seq<byte>)
    requires ts != []
    ensures EncodeAll(ts) + rest == EncodeAll(ts[..|ts|-1]) + (Encode(ts[|ts|-1].w) + rest)
    ensures Wires(ts) == Wires(ts[..|ts|-1]) + [ts[|ts|-1].w]
  {
    Assoc(EncodeAll(ts[..|ts|-1]), Encode(ts[|ts|-1].w), rest);
  }

  /** The parse loop recovers exactly the segments of a packet, in order, and
      carries on with whatever follows them. */
  lemma {:induction false} ParseLoopRoundTrip(conv: u32, ts: seq<Tagged>, rest: seq<byte>)
    requires AllSendable(conv, ts)
    ensures ParseLoop(conv, EncodeAll(ts) + rest) == Prepend(Wires(ts), ParseLoop(conv, rest))
  {
    if ts == [] {
      assert EncodeAll(ts) + rest == rest;
    } else {
      var init, last := ts[..|ts|-1], ts[|ts|-1].w;
      var p := ParseLoop(conv, rest);
      calc {
        ParseLoop(conv, EncodeAll(ts) + rest);
        { EncodeAllLast(ts, rest); }
        ParseLoop(conv, EncodeAll(init) + (Encode(last) + rest));
        { ParseLoopRoundTrip(conv, init, Encode(last) + rest); }
        Prepend(Wires(init), ParseLoop(conv, Encode(last) + rest));
        { ParseLoopStep(conv, last, rest); }
        Prepend(Wires(init), Prepend([last], p));
        { PrependAppend(Wires(init), last, p); }
        Prepend(Wires(init) + [last], p);
        { EncodeAllLast(ts, rest); }
        Prepend(Wires(ts), p);
      }
    }
  }

  /** Every non-empty packet an endpoint emits parses back to its own segments. */
  lemma PacketRoundTrip(conv: u32, ts: seq<Tagged>)
    requires ts != [] && AllSendable(conv, ts)
    ensures Parse(conv, EncodeAll(ts)) == Parsed(Wires(ts), 0)
  {
    ParseLoopRoundTrip(conv, ts, []);
    assert EncodeAll(ts) + [] == EncodeAll(ts);
    assert Wires(ts) + [] == Wires(ts);
    assert |EncodeAll(ts)| >= OVERHEAD;
  }

  // ------------------------------------------------------ the other way round

  /** The number that n bytes from `at` on stand for, least significant first. */
  function Little(b: seq<byte>, at: nat, n: nat): int
    requires at + n <= |b|
    decreases n
  {
    if n == 0 then 0 else b[at] + 256 * Little(b, at + 1, n - 1)
  }

  lemma LittleIs(b: seq<byte>, at: nat)
    ensures at + 4 <= |b| ==> Little(b, at, 4) == Get32(b[at..])
    ensures at + 2 <= |b| ==> Little(b, at, 2) == Get16(b[at..])
  {
    if at + 2 <= |b| { assert Little(b, at + 2, 0) == 0 && Little(b, at + 1, 1) == b[at + 1] as int; }
    if at + 4 <= |b| {
      assert Little(b, at + 3, 1) == b[at + 3] as int && Little(b, at + 2, 2) == b[at + 2] + 256 * (b[at + 3] as int);
      assert Little(b, at + 1, 3) == b[at + 1] + 256 * (b[at + 2] + 256 * (b[at + 3] as int) as int);
    }
  }

  /** Where every field of a segment stands, and in which order of bytes. */
  lemma Layout(w: Wire)
    requires |w.data| < RANGE
    ensures var b := Encode(w);
            && |b| == OVERHEAD + |w.data|
            && Little(b, 0, 4) == w.conv && b[4] == w.cmd && b[5] == w.frg && Little(b, 6, 2) == w.wnd && Little(b, 8, 4) == w.ts
            && Little(b, 12, 4) == w.sn && Little(b, 16, 4) == w.una && Little(b, 20, 4) == |w.data| && b[24..] == w.data
  {
    hide Header, Get32, Get16, Little, W;
    var b := Encode(w);
    HeaderFields(w, W(|w.data|), w.data);
    Unwrapped(|w.data|);
    LittleIs(b, 0); LittleIs(b, 6); LittleIs(b, 8); LittleIs(b, 12); LittleIs(b, 16); LittleIs(b, 20);
    assert b[0..] == b;
  }

  lemma PutGet32(b: seq<byte>)
    requires |b| >= 4
    ensures Put32(Get32(b)) == b[..4]
  {
    var x3 := b[3] as int;
    var x2 := b[2] + 256 * x3;
    var x1 := b[1] + 256 * x2;
    Digit(b[0], x1); Digit(b[1], x2); Digit(b[2], x3);
  }

  lemma PutGet16(b: seq<byte>)
    requires |b| >= 2
    ensures Put16(Get16(b)) == b[..2]
  {
    Digit(b[0], b[1] as int);
  }

  lemma Digit(low: byte, high: int)
    requires 0 <= high
    ensures (low + 256 * high) % 256 == low as int && (low + 256 * high) / 256 == high
  {
  }

  lemma HeaderIs(d: seq<byte>)
    requires |d| >= OVERHEAD
    ensures Header(Head(d), Length(d)) == d[..OVERHEAD]
  {
    hide Get32, Get16, Put32, Put16;
    PutGet32(d); PutGet16(d[6..]); PutGet32(d[8..]); PutGet32(d[12..]); PutGet32(d[16..]); PutGet32(d[20..]);
    assert d[..OVERHEAD] == d[..4] + [d[4], d[5]] + d[6..][..2] + d[8..][..4] + d[12..][..4] + d[16..][..4] + d[20..][..4];
  }

  /** What is accepted is an encoded segment, byte for byte. */
  lemma AcceptedIsEncoded(conv: u32, d: seq<byte>)
    requires |d| >= OVERHEAD && Verdict(conv, d) == 0
    ensures Sendable(conv, Leading(conv, d)) && OVERHEAD + Length(d) <= |d|
    ensures d == Encode(Leading(conv, d)) + d[OVERHEAD + Length(d)..]
  {
    hide Header, Get32, Get16, W;
    HeaderIs(d);
    var w, n := Leading(conv, d), OVERHEAD + Length(d);
    Unwrapped(|w.data|);
    SameHeader(w, Head(d), Length(d));
    assert d == d[..OVERHEAD] + d[OVERHEAD..n] + d[n..];
  }

  lemma SameHeader(w: Wire, w': Wire, len: u32)
    requires w.(data := []) == w'.(data := [])
    ensures Header(w, len) == Header(w', len)
  {
  }

  function EncodeWires(ws: seq<Wire>): seq<byte> {
    if ws == [] then [] else Encode(ws[0]) + EncodeWires(ws[1..])
  }

  /** No segment of this conversation leads these bytes. */
  ghost predicate Foreign(conv: u32, d: seq<byte>) { |d| >= OVERHEAD && forall w :: Sendable(conv, w) ==> !(Encode(w) <= d) }

  lemma RefusedIsForeign(conv: u32, d: seq<byte>)
    requires |d| >= OVERHEAD && Verdict(conv, d) != 0
    ensures Foreign(conv, d)
  {
    hide Verdict, Encode;
    forall w | Sendable(conv, w) ensures !(Encode(w) <= d) {
      if Encode(w) <= d {
        assert d == Encode(w) + d[|Encode(w)|..];
        ParseEncoded(conv, w, d[|Encode(w)|..]);
      }
    }
  }

  /** For all bytes: what the parse loop takes is, byte for byte, the encoding of segments
      of the conversation; it stops with verdict 0 only when less than a header is left,
      and refuses only where no segment of the conversation could be. */
  lemma {:induction false} ParseIsInverse(conv: u32, d: seq<byte>) returns (rest: seq<byte>)
    ensures var p := ParseLoop(conv, d);
            && d == EncodeWires(p.segs) + rest
            && (forall i :: 0 <= i < |p.segs| ==> Sendable(conv, p.segs[i]))
            && (p.code == 0 <==> |rest| < OVERHEAD) && (p.code != 0 ==> Foreign(conv, rest) && p.code == Verdict(conv, rest))
    decreases |d|
  {
    hide Verdict, Encode, Foreign, Leading, Length;
    if |d| < OVERHEAD {
      rest := d;
      assert [] + rest == d;
    } else if Verdict(conv, d) != 0 {
      rest := d;
      RefusedIsForeign(conv, d);
      assert [] + rest == d;
    } else {
      AcceptedIsEncoded(conv, d);
      var w, tail := Leading(conv, d), d[OVERHEAD + Length(d)..];
      rest := ParseIsInverse(conv, tail);
      var p := ParseLoop(conv, tail);
      assert ([w] + p.segs)[1..] == p.segs;
      Assoc(Encode(w), EncodeWires(p.segs), rest);
    }
  }

  // ------------------------------------------------------------ packet sizes

  function Flatten(ps: seq<seq<Tagged>>): seq<Tagged> {
    if ps == [] then [] else Flatten(ps[..|ps|-1]) + ps[|ps|-1]
  }

  function Puts(items: seq<Item>): seq<Tagged> {
    if items == [] then []
    else Puts(items[..|items|-1]) + PutOf(items[|items|-1])
  }

  /** At most one MTU, or a single segment that is larger than the MTU on its own. */
  predicate Fits(mtu: u32, p: seq<Tagged>) { Size(p) <= mtu || |p| == 1 }

  ghost predicate PackingFits(mtu: u32, p: Packing) {
    Fits(mtu, p.cur) && forall i :: 0 <= i < |p.done| ==> Fits(mtu, p.done[i])
  }

  function Content(p: Packing): seq<Tagged> { Flatten(p.done) + p.cur }

  function PutOf(i: Item): seq<Tagged> { match i case Gap => [] case Put(t) => [t] }

  lemma FlattenAppend(ps: seq<seq<Tagged>>, p: seq<Tagged>)
    ensures Flatten(ps + [p]) == Flatten(ps) + p
  {
    assert (ps + [p])[..|ps|] == ps;
  }

  lemma {:induction false} FlattenFinds(ps: seq<seq<Tagged>>, t: Tagged)
    requires t in Flatten(ps)
    ensures exists p :: p in ps && t in p
  {
    if t !in ps[|ps|-1] { FlattenFinds(ps[..|ps|-1], t); }
  }

  lemma SizeAppend(p: seq<Tagged>, t: Tagged)
    ensures Size(p + [t]) == Size(p) + OVERHEAD + |t.w.data|
  {
    assert (p + [t])[..|p|] == p;
  }

  /** Room was made, so the item fits or stands alone. */
  lemma PutFits(mtu: u32, p: Packing, t: Tagged)
    requires PackingFits(mtu, p) && (p.cur == [] || Size(p.cur) + OVERHEAD + |t.w.data| <= mtu)
    ensures PackingFits(mtu, p.(cur := p.cur + [t]))
    ensures Content(p.(cur := p.cur + [t])) == Content(p) + [t]
  {
    SizeAppend(p.cur, t);
    Assoc(Flatten(p.done), p.cur, [t]);
  }

  lemma MakeSpaceKeeps(mtu: u32, p: Packing, space: int)
    requires PackingFits(mtu, p)
    ensures Content(MakeSpace(mtu, p, space)) == Content(p) && PackingFits(mtu, MakeSpace(mtu, p, space))
  {
    hide Flatten;
    FlattenAppend(p.done, p.cur);
  }

  lemma {:induction false} PackOneKeeps(mtu: u32, p: Packing, i: Item)
    requires PackingFits(mtu, p)
    ensures Content(PackOne(mtu, p, i)) == Content(p) + PutOf(i)
    ensures PackingFits(mtu, PackOne(mtu, p, i))
  {
    MakeSpaceKeeps(mtu, p, Space(i));
    if i.Put? { PutFits(mtu, MakeSpace(mtu, p, Space(i)), i.t); }
  }

  lemma {:induction false} PackKeeps(mtu: u32, p: Packing, items: seq<Item>)
    requires PackingFits(mtu, p)
    ensures Content(Pack(mtu, p, items)) == Content(p) + Puts(items)
    ensures PackingFits(mtu, Pack(mtu, p, items))
  {
    hide Content, PackingFits, PackOne, PutOf;
    if items == [] {
      NothingAdded(Content(p));
    } else {
      PackKeeps(mtu, p, items[..|items|-1]);
      PackOneKeeps(mtu, Pack(mtu, p, items[..|items|-1]), items[|items|-1]);
      Assoc(Content(p), Puts(items[..|items|-1]), PutOf(items[|items|-1]));
    }
  }

  lemma {:induction false} PackAppend(mtu: u32, p: Packing, a: seq<Item>, b: seq<Item>)
    ensures Pack(mtu, p, a + b) == Pack(mtu, Pack(mtu, p, a), b)
  {
    if b == [] {
      assert a + b == a;
    } else {
      PackAppend(mtu, p, a, b[..|b|-1]);
      assert (a + b)[..|a + b|-1] == a + b[..|b|-1];
    }
  }

  function Closed(p: Packing): seq<seq<Tagged>> { if p.cur == [] then p.done else p.done + [p.cur] }

  lemma ClosedContent(p: Packing)
    ensures Flatten(Closed(p)) == Content(p)
  {
    if p.cur == [] { NothingAdded(Flatten(p.done)); } else { FlattenAppend(p.done, p.cur); }
  }

  lemma NothingAdded(s: seq<Tagged>)
    ensures s + [] == s && [] + s == s
  {
  }

  lemma ClosedFits(mtu: u32, p: Packing)
    requires PackingFits(mtu, p)
    ensures forall i :: 0 <= i < |Closed(p)| ==> Fits(mtu, Closed(p)[i])
  {
  }

  /** Splitting into packets keeps every segment once and in order; a packet
      exceeds the MTU only when it is one segment, larger than the MTU by itself. */
  lemma PacketsPartition(mtu: u32, items: seq<Item>)
    ensures Flatten(Packets(mtu, items)) == Puts(items)
    ensures forall i :: 0 <= i < |Packets(mtu, items)| ==> Fits(mtu, Packets(mtu, items)[i])
  {
    hide Pack, Puts, Flatten;
    var p := Pack(mtu, Packing([], []), items);
    EmptyPacking(mtu);
    PackKeeps(mtu, Packing([], []), items);
    NothingAdded(Puts(items));
    ClosedContent(p);
    ClosedFits(mtu, p);
  }

  /** The next packet would not have fitted into this one as well. */
  ghost predicate NoRoom(mtu: u32, p: seq<Tagged>, next: seq<Tagged>) {
    next != [] ==> Size(p) + OVERHEAD + |next[0].w.data| > mtu
  }

  ghost predicate Tight(mtu: u32, ps: seq<seq<Tagged>>) { forall i :: 0 <= i < |ps| - 1 ==> NoRoom(mtu, ps[i], ps[i + 1]) }

  ghost predicate PackingTight(mtu: u32, p: Packing) {
    && Tight(mtu, p.done)
    && (p.done != [] ==> NoRoom(mtu, p.done[|p.done|-1], p.cur) && (p.cur == [] ==> Size(p.done[|p.done|-1]) + OVERHEAD > mtu))
  }

  lemma PackOneTight(mtu: u32, p: Packing, i: Item)
    requires PackingTight(mtu, p)
    ensures PackingTight(mtu, PackOne(mtu, p, i))
  {
    hide Size;
  }

  lemma {:induction false} PackTight(mtu: u32, items: seq<Item>)
    ensures PackingTight(mtu, Pack(mtu, Packing([], []), items))
  {
    hide PackOne;
    if items != [] {
      PackTight(mtu, items[..|items|-1]);
      PackOneTight(mtu, Pack(mtu, Packing([], []), items[..|items|-1]), items[|items|-1]);
    }
  }

  /** A flush starts a new packet only when the MTU makes it: what comes first in a
      packet would not have fitted into the one before. */
  lemma PacketsAreTight(mtu: u32, items: seq<Item>)
    ensures Tight(mtu, Packets(mtu, items))
  {
    hide Pack, NoRoom;
    PackTight(mtu, items);
  }

  lemma EmptyPacking(mtu: u32)
    ensures Content(Packing([], [])) == [] && PackingFits(mtu, Packing([], []))
  {
  }
}
