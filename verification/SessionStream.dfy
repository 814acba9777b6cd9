/** Two sessions over a network that loses, repeats and reorders packets: what the
    reader of one gets is a prefix of what the writer of the other wrote. */
module SessionStream {
  import opened Serial
  import opened KcpState
  import opened KcpWindows
  import opened Delivery
  import opened DeliveryRuns
  import opened DeliveryTheorems
  import Session

  /** A session: its engine, what is left of the last message, and as history the
      bytes its reader got and its writer wrote. */
  datatype End = End(node: Node, input: seq<byte>, read: seq<byte>, written: seq<byte>)

  datatype Pair = Pair(a: End, b: End, ab: set<Packet>, ba: set<Packet>)

  /** Something happens at a session: a write, a read, or any operation of the engine
      that the session runs by itself. */
  datatype Act = Write(v: seq<seq<byte>>) | Read(room: nat) | Engine(op: Op)

  // -------------------------------------------------------------------- steps

  ghost function SendPieces(x: Node, b: seq<byte>): Node
    decreases |b|
  {
    if |b| <= x.k.cfg.mss then NodeStep(x, OpSend(b))
    else SendPieces(NodeStep(x, OpSend(b[..x.k.cfg.mss])), b[x.k.cfg.mss..])
  }

  ghost function SendAll(x: Node, v: seq<seq<byte>>): Node {
    if v == [] then x else SendPieces(SendAll(x, v[..|v|-1]), v[|v|-1])
  }

  /** writeBuffersLocked, up to its flush: refused while the send window is full. */
  ghost function Writes(e: End, v: seq<seq<byte>>): End {
    if |e.node.k.snd.buf| + |e.node.k.snd.queue| >= e.node.k.cfg.sndWnd then e
    else e.(node := SendAll(e.node, v), written := e.written + Join(v))
  }

  /** readLocked. */
  ghost function Reads(e: End, room: nat): End {
    var r, size := Session.Read(e.node.k, e.input, room), PeekSize(e.node.k.rcv.queue);
    End(if e.input == [] && size > 0 then NodeStep(e.node, OpRecv(Max(room, size))) else e.node,
        r.input, e.read + r.data, e.written)
  }

  ghost function EndStep(e: End, act: Act): End {
    match act
    case Write(v) => Writes(e, v)
    case Read(room) => Reads(e, room)
    case Engine(op) => e.(node := NodeStep(e.node, op))
  }

  ghost function EndOut(e: End, act: Act): set<Packet> { if act.Engine? then Out(e.node.k, act.op) else {} }

  ghost predicate CanAct(e: End, act: Act, net: set<Packet>) {
    act.Engine? ==> !act.op.OpSend? && !act.op.OpRecv? && Possible(e.node.k, act.op, net)
  }

  ghost predicate Next(p: Pair, p': Pair, atA: bool, act: Act) {
    if atA then CanAct(p.a, act, p.ba) && p' == p.(a := EndStep(p.a, act), ab := p.ab + EndOut(p.a, act))
    else CanAct(p.b, act, p.ab) && p' == p.(b := EndStep(p.b, act), ba := p.ba + EndOut(p.b, act))
  }

  // ---------------------------------------------------------------- invariant

  /** Nothing is lost between the engine and the session's callers. */
  ghost predicate EndOk(e: End) { e.read + e.input == Join(e.node.got) && e.written == e.node.sent }

  function SystemOf(p: Pair): System { System(p.a.node, p.b.node, p.ab, p.ba) }

  ghost predicate PairOk(conv: u32, p: Pair) { SystemOk(conv, SystemOf(p)) && EndOk(p.a) && EndOk(p.b) }

  lemma PieceSent(conv: u32, x: Node, y: Node, xy: set<Packet>, yx: set<Packet>, b: seq<byte>)
    requires SystemOk(conv, System(x, y, xy, yx)) && |b| <= x.k.cfg.mss
    ensures var x' := NodeStep(x, OpSend(b));
            SystemOk(conv, System(x', y, xy, yx)) && x'.sent == x.sent + b && x'.got == x.got
  {
    hide SystemOk, Send, Taken;
    StepAt(conv, x, y, xy, yx, OpSend(b));
    assert xy + Out(x.k, OpSend(b)) == xy;
    Session.PieceAccepted(x.k, b);
    assert b[..|b|] == b;
  }

  lemma {:induction false} PiecesSent(conv: u32, x: Node, y: Node, xy: set<Packet>, yx: set<Packet>, b: seq<byte>)
    requires SystemOk(conv, System(x, y, xy, yx))
    ensures var x' := SendPieces(x, b);
            SystemOk(conv, System(x', y, xy, yx)) && x'.sent == x.sent + b && x'.got == x.got
    decreases |b|
  {
    hide SystemOk, NodeStep;
    var mss := x.k.cfg.mss;
    if |b| <= mss {
      PieceSent(conv, x, y, xy, yx, b);
    } else {
      PieceSent(conv, x, y, xy, yx, b[..mss]);
      PiecesSent(conv, NodeStep(x, OpSend(b[..mss])), y, xy, yx, b[mss..]);
      assert b == b[..mss] + b[mss..];
    }
  }

  /** Every byte of a write is taken by the engine, in order. */
  lemma {:induction false} AllSent(conv: u32, x: Node, y: Node, xy: set<Packet>, yx: set<Packet>, v: seq<seq<byte>>)
    requires SystemOk(conv, System(x, y, xy, yx))
    ensures var x' := SendAll(x, v);
            SystemOk(conv, System(x', y, xy, yx)) && x'.sent == x.sent + Join(v) && x'.got == x.got
  {
    hide SystemOk, SendPieces;
    if v == [] {
      assert x.sent + [] == x.sent;
    } else {
      AllSent(conv, x, y, xy, yx, v[..|v|-1]);
      PiecesSent(conv, SendAll(x, v[..|v|-1]), y, xy, yx, v[|v|-1]);
    }
  }

  lemma {:induction false} PiecesAreEngine(x: Node, b: seq<byte>)
    ensures SendPieces(x, b).k == Session.SendPieces(x.k, b)
    decreases |b|
  {
    hide Send, Taken;
    if |b| > x.k.cfg.mss { PiecesAreEngine(NodeStep(x, OpSend(b[..x.k.cfg.mss])), b[x.k.cfg.mss..]); }
  }

  /** What a write does to the engine here is what class UDPSession is proved to do
      to it. */
  lemma {:induction false} WritesAreSession(x: Node, v: seq<seq<byte>>)
    ensures SendAll(x, v).k == Session.WriteAll(x.k, v)
  {
    hide SendPieces, Session.SendPieces;
    if v != [] {
      WritesAreSession(x, v[..|v|-1]);
      PiecesAreEngine(SendAll(x, v[..|v|-1]), v[|v|-1]);
    }
  }

  /** And so is a read. */
  lemma ReadsAreSession(e: End, room: nat)
    ensures var r, e' := Session.Read(e.node.k, e.input, room), Reads(e, room);
            e'.node.k == r.k && e'.input == r.input && e'.read == e.read + r.data
  {
    hide PeekSize, MoveAvailable, MessageEnd;
  }

  lemma RecvNode(x: Node, room: nat)
    requires PeekSize(x.k.rcv.queue) > 0
    ensures var big := Max(room, PeekSize(x.k.rcv.queue));
            var m, r, x' := Recv(x.k, big), Session.Read(x.k, [], room), NodeStep(x, OpRecv(big));
            x'.sent == x.sent && x'.got == x.got + [m.data] && r.data + r.input == m.data
  {
    hide PeekSize, MoveAvailable, MessageEnd;
  }

  lemma ReadOk(conv: u32, e: End, y: Node, xy: set<Packet>, yx: set<Packet>, room: nat)
    requires SystemOk(conv, System(e.node, y, xy, yx)) && EndOk(e)
    ensures SystemOk(conv, System(Reads(e, room).node, y, xy, yx)) && EndOk(Reads(e, room))
  {
    hide SystemOk, PeekSize, Recv, NodeStep, Join;
    var size := PeekSize(e.node.k.rcv.queue);
    var r := Session.Read(e.node.k, e.input, room);
    if e.input == [] && size > 0 {
      var big := Max(room, size);
      StepAt(conv, e.node, y, xy, yx, OpRecv(big));
      assert xy + Out(e.node.k, OpRecv(big)) == xy;
      var m := Recv(e.node.k, big);
      RecvNode(e.node, room);
      MessageJoins(e.node.got, m.data, e.read, r.data, r.input);
    } else {
      assert r.data + r.input == e.input;
      assert e.read + r.data + r.input == e.read + e.input;
    }
  }

  lemma MessageJoins(got: seq<seq<byte>>, m: seq<byte>, read: seq<byte>, data: seq<byte>, rest: seq<byte>)
    requires read + [] == Join(got) && data + rest == m
    ensures read + data + rest == Join(got + [m])
  {
    assert (got + [m])[..|got|] == got;
    assert read + data + rest == read + (data + rest);
  }

  /** The engine's own operations neither take from a writer nor give to a reader. */
  lemma EngineQuiet(x: Node, op: Op)
    requires !op.OpSend? && !op.OpRecv?
    ensures NodeStep(x, op).sent == x.sent && NodeStep(x, op).got == x.got
  {
    hide Step;
  }

  lemma EndKeeps(conv: u32, e: End, y: Node, xy: set<Packet>, yx: set<Packet>, act: Act)
    requires SystemOk(conv, System(e.node, y, xy, yx)) && EndOk(e) && CanAct(e, act, yx)
    ensures SystemOk(conv, System(EndStep(e, act).node, y, xy + EndOut(e, act), yx)) && EndOk(EndStep(e, act))
  {
    hide SystemOk, Possible, NodeStep, Out, SendAll, Reads;
    match act
    case Write(v) =>
      assert xy + {} == xy;
      AllSent(conv, e.node, y, xy, yx, v);
    case Read(room) =>
      assert xy + {} == xy;
      ReadOk(conv, e, y, xy, yx, room);
    case Engine(op) =>
      StepAt(conv, e.node, y, xy, yx, op);
      EngineQuiet(e.node, op);
  }

  lemma SwapOk(conv: u32, x: Node, y: Node, xy: set<Packet>, yx: set<Packet>)
    requires SystemOk(conv, System(x, y, xy, yx))
    ensures SystemOk(conv, System(y, x, yx, xy))
  {
    hide Good, Direction, NetOk;
  }

  lemma PairStep(conv: u32, p: Pair, p': Pair, atA: bool, act: Act)
    requires PairOk(conv, p) && Next(p, p', atA, act)
    ensures PairOk(conv, p')
  {
    hide SystemOk, EndOk, EndStep, EndOut, CanAct;
    if atA {
      EndKeeps(conv, p.a, p.b.node, p.ab, p.ba, act);
    } else {
      SwapOk(conv, p.a.node, p.b.node, p.ab, p.ba);
      EndKeeps(conv, p.b, p.a.node, p.ba, p.ab, act);
      SwapOk(conv, p'.b.node, p'.a.node, p'.ba, p'.ab);
    }
  }

  // --------------------------------------------------------------------- runs

  function NewEnd(conv: u32): End { End(NewNode(conv), [], [], []) }

  ghost predicate IsSessionRun(ps: seq<Pair>, at: seq<bool>, acts: seq<Act>) {
    && |ps| == |acts| + 1 == |at| + 1
    && forall i :: 0 <= i < |acts| ==> Next(ps[i], ps[i + 1], at[i], acts[i])
  }

  lemma {:induction false} RunsKeepStream(conv: u32, ps: seq<Pair>, at: seq<bool>, acts: seq<Act>, n: nat)
    requires IsSessionRun(ps, at, acts) && ps[0] == Pair(NewEnd(conv), NewEnd(conv), {}, {}) && n < |ps|
    ensures PairOk(conv, ps[n])
  {
    hide PairOk, Next;
    if n == 0 {
      NewPairOk(conv);
    } else {
      RunsKeepStream(conv, ps, at, acts, n - 1);
      PairStep(conv, ps[n - 1], ps[n], at[n - 1], acts[n - 1]);
    }
  }

  lemma NewPairOk(conv: u32)
    ensures PairOk(conv, Pair(NewEnd(conv), NewEnd(conv), {}, {}))
  {
    NewSystemOk(conv);
  }

  /** A session is a byte stream: in every run, with reads into buffers of any size,
      writes of any slices, in either mode, the bytes read at one end are a prefix of
      the bytes whose writing the other end reported. */
  lemma SessionDelivery(conv: u32, ps: seq<Pair>, at: seq<bool>, acts: seq<Act>, n: nat)
    requires IsSessionRun(ps, at, acts) && ps[0] == Pair(NewEnd(conv), NewEnd(conv), {}, {}) && n < |ps|
    ensures ps[n].b.read <= ps[n].a.written
    ensures ps[n].a.read <= ps[n].b.written
  {
    hide IsSessionRun, Direction;
    RunsKeepStream(conv, ps, at, acts, n);
    var p := ps[n];
    ReceivedIsPrefix(p.a.node, p.b.node, p.ab, p.ba);
    ReceivedIsPrefix(p.b.node, p.a.node, p.ba, p.ab);
  }
}
