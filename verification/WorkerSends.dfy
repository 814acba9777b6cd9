/** What is put into a session's queue is handed to tx: once, in order, and all of it
    while the session is open. */
module WorkerSends {
  import opened HandOff
  import opened WorkerBatches

  /** The packets of session s among these, without their copies and parity. */
  ghost function Own(b: seq<Packet>, s: nat): seq<nat> {
    if b == [] then []
    else
      var p := b[|b| - 1];
      Own(b[..|b| - 1], s) + if p.s == s && !p.extra then [p.r] else []
  }

  lemma {:induction false} OwnConcat(a: seq<Packet>, b: seq<Packet>, s: nat)
    ensures Own(a + b, s) == Own(a, s) + Own(b, s)
  {
    if b == [] {
      assert a + b == a;
    } else {
      OwnConcat(a, b[..|b| - 1], s);
      assert (a + b)[..|a + b| - 1] == a + b[..|b| - 1];
    }
  }

  lemma {:induction false} OwnNone(b: seq<Packet>, s: nat)
    requires forall p :: p in b && p.s == s ==> p.extra
    ensures Own(b, s) == []
  {
    if b != [] {
      assert b[|b| - 1] in b;
      OwnNone(b[..|b| - 1], s);
    }
  }

  /** A packet joins the batch with its copies. */
  lemma OwnBatched(b: seq<Packet>, s: nat, r: nat, more: seq<Packet>, b': seq<Packet>)
    requires Batches(b, s, r, more, b')
    ensures Own(b', s) == Own(b, s) + [r]
  {
    hide Own;
    OwnConcat(b + [Packet(s, r, false)], more, s);
    OwnConcat(b, [Packet(s, r, false)], s);
    OwnNone(more, s);
    assert Own([Packet(s, r, false)], s) == [r] by { OwnOne(Packet(s, r, false)); }
    assert Own(b, s) + [r] + [] == Own(b, s) + [r];
  }

  lemma OwnOne(p: Packet)
    requires !p.extra
    ensures Own([p], p.s) == [p.r]
  {
    assert [p][..0] == [];
  }

  // ---------------------------------------------------------------- one session

  /** What its owner carries for a session: b when that is thread t, c when another. */
  ghost function CarriedBy(t: nat, s: nat, x: Sess, b: seq<Packet>, c: seq<nat>): seq<nat> {
    if x.owner == Held(t) then Own(b, s) else if x.owner.Held? then c else []
  }

  /** The owner has passed the last look at the closed channel before tx. */
  ghost predicate PastLook(pc: Pc) { pc.Sending? || pc.InTx? }

  ghost predicate CommittedBy(t: nat, pc: Pc, x: Sess, other: bool) {
    if x.owner == Held(t) then PastLook(pc) else x.owner.Held? && other
  }

  /** Pushed is sent, then carried, then queued; once the session is closed, what was
      sent, and what is about to be, is a beginning of it. */
  ghost predicate InLine(s: nat, x: Sess, carried: seq<nat>, committed: bool) {
    && (!x.die ==> x.pushed == Own(x.tx, s) + carried + x.queue)
    && (x.die ==> Own(x.tx, s) <= x.pushed && (committed ==> Own(x.tx, s) + carried <= x.pushed))
  }

  /** What a worker carries of an open session that it is not serving. */
  ghost predicate Clean(s: nat, pc: Pc, x: Sess, b: seq<Packet>) { forall p :: p in b && p.s == s ==> PacketOk(pc, p, x) }

  lemma NothingCarried(s: nat, pc: Pc, x: Sess, b: seq<Packet>)
    requires Clean(s, pc, x, b) && !x.die && !Carries(pc, x)
    ensures Own(b, s) == []
  {
    OwnNone(b, s);
  }

  ghost predicate LineOk(t: nat, s: nat, v: View, c: seq<nat>, other: bool) {
    InLine(s, v.x, CarriedBy(t, s, v.x, v.b, c), CommittedBy(t, v.pc, v.x, other))
  }

  lemma PushesInLine(t: nat, s: nat, v: View, w: View, c: seq<nat>, other: bool)
    requires v.pc.Cleared? && v.pc.s == s && Produces(t, s, v, w) && PairOk(t, v.pc, s, v.x) && LineOk(t, s, v, c, other)
    ensures LineOk(t, s, w, c, other)
  {
    hide Own, PairOk;
    assert v.x.owner != Held(t) by { Unowned(t, v.pc, s, v.x); }
  }

  lemma Unowned(t: nat, pc: Pc, s: nat, x: Sess)
    requires PairOk(t, pc, s, x) && !Owns(pc)
    ensures x.owner != Held(t)
  {
  }

  /** Entering and leaving the critical section, and closing the channel in it. */
  lemma HoldsInLine(t: nat, s: nat, v: View, w: View, c: seq<nat>, other: bool)
    requires (v.pc.Idle? || v.pc.Holding?) && At(v.pc, s) && Produces(t, s, v, w) && v.x.owner != Held(t) && LineOk(t, s, v, c, other)
    ensures LineOk(t, s, w, c, other)
  {
    hide Own;
    assert v.x.queue + [] == v.x.queue;
  }

  lemma ClaimsInLine(t: nat, s: nat, v: View, w: View, c: seq<nat>, other: bool)
    requires (v.pc.Pushed? || v.pc.Claimed?) && v.pc.s == s && Produces(t, s, v, w) && PairOk(t, v.pc, s, v.x) && SessOk(s, v.x, v.q)
    requires v.b == [] && LineOk(t, s, v, c, other)
    ensures LineOk(t, s, w, c, other)
  {
    hide Own;
    assert Own([], s) == [] by { OwnNone([], s); }
  }

  lemma ProducesInLine(t: nat, s: nat, v: View, w: View, c: seq<nat>, other: bool)
    requires At(v.pc, s) && Produces(t, s, v, w) && PairOk(t, v.pc, s, v.x) && SessOk(s, v.x, v.q) && v.b == []
    requires LineOk(t, s, v, c, other)
    ensures LineOk(t, s, w, c, other)
  {
    assert v.pc.Idle? || v.pc.Holding? || v.pc.Cleared? || v.pc.Pushed? || v.pc.Claimed?;
    hide PairOk, SessOk, Produces, LineOk;
    if v.pc.Cleared? {
      PushesInLine(t, s, v, w, c, other);
    } else if v.pc.Pushed? || v.pc.Claimed? {
      ClaimsInLine(t, s, v, w, c, other);
    } else {
      Unowned(t, v.pc, s, v.x);
      HoldsInLine(t, s, v, w, c, other);
    }
  }

  lemma ClosesInLine(t: nat, s: nat, v: View, w: View, c: seq<nat>, other: bool)
    requires At(v.pc, s) && Closes(t, s, v, w) && PairOk(t, v.pc, s, v.x) && SessOk(s, v.x, v.q)
    requires LineOk(t, s, v, c, other)
    ensures LineOk(t, s, w, c, other)
  {
    hide Own;
  }

  lemma FinishesInLine(t: nat, s: nat, v: View, w: View, c: seq<nat>, other: bool)
    requires At(v.pc, s) && Finishes(t, s, v, w) && PairOk(t, v.pc, s, v.x) && SessOk(s, v.x, v.q) && Clean(s, v.pc, v.x, v.b)
    requires LineOk(t, s, v, c, other)
    ensures LineOk(t, s, w, c, other)
  {
    hide Own, Clean;
    if !v.x.die && !Carries(v.pc, v.x) { NothingCarried(s, v.pc, v.x, v.b); }
  }

  lemma PopsInLine(t: nat, s: nat, v: View, w: View, c: seq<nat>, other: bool)
    requires v.pc.Popping? && v.pc.s == s && Works(t, s, v, w) && PairOk(t, v.pc, s, v.x) && LineOk(t, s, v, c, other)
    ensures LineOk(t, s, w, c, other)
  {
    hide Own, Batches;
    if v.pc.n < BUDGET && v.x.queue != [] {
      var more :| Batches(v.b, s, v.x.queue[0], more, w.b);
      OwnBatched(v.b, s, v.x.queue[0], more, w.b);
      assert v.x.queue == [v.x.queue[0]] + v.x.queue[1..];
    }
  }

  lemma SendsInLine(t: nat, s: nat, v: View, w: View, c: seq<nat>, other: bool)
    requires PastLook(v.pc) && v.pc.s == s && Works(t, s, v, w) && PairOk(t, v.pc, s, v.x) && SessOk(s, v.x, v.q) && LineOk(t, s, v, c, other)
    ensures LineOk(t, s, w, c, other)
  {
    hide Own;
    OwnConcat(v.x.tx, v.b, s);
    assert Own([], s) == [] by { OwnNone([], s); }
  }

  lemma WorksInLine(t: nat, s: nat, v: View, w: View, c: seq<nat>, other: bool)
    requires At(v.pc, s) && Works(t, s, v, w) && PairOk(t, v.pc, s, v.x) && SessOk(s, v.x, v.q) && Clean(s, v.pc, v.x, v.b)
    requires LineOk(t, s, v, c, other)
    ensures LineOk(t, s, w, c, other)
  {
    hide Own, Clean;
    if v.pc.Popping? {
      PopsInLine(t, s, v, w, c, other);
    } else if PastLook(v.pc) {
      SendsInLine(t, s, v, w, c, other);
    } else {
      if !v.x.die && !Carries(v.pc, v.x) { NothingCarried(s, v.pc, v.x, v.b); }
      assert Own([], s) == [] by { OwnNone([], s); }
    }
  }

  lemma MovesInLine(t: nat, s: nat, v: View, w: View, c: seq<nat>, other: bool)
    requires Moves(t, s, v, w) && PairOk(t, v.pc, s, v.x) && SessOk(s, v.x, v.q) && Clean(s, v.pc, v.x, v.b)
    requires !Started(v.pc) ==> v.b == []
    requires LineOk(t, s, v, c, other)
    ensures LineOk(t, s, w, c, other)
  {
    hide Produces, Closes, Works, Finishes, LineOk, PairOk, SessOk, Clean, Started;
    if Produces(t, s, v, w) {
      NotStarted(t, s, v, w);
      ProducesInLine(t, s, v, w, c, other);
    } else if Closes(t, s, v, w) {
      ClosesInLine(t, s, v, w, c, other);
    } else if Works(t, s, v, w) {
      WorksInLine(t, s, v, w, c, other);
    } else {
      FinishesInLine(t, s, v, w, c, other);
    }
  }

  lemma NotStarted(t: nat, s: nat, v: View, w: View)
    requires Produces(t, s, v, w)
    ensures !Started(v.pc)
  {
  }

  // --------------------------------------------------------------- whole states

  /** What the thread that serves a session carries for it. */
  ghost function Carried(h: State, s: nat): seq<nat>
    requires s < |h.sess|
  {
    var o := h.sess[s].owner;
    if o.Held? && o.t < |h.pcs| && o.t < |h.rec| then Own(Batch(h, o.t), s) else []
  }

  ghost predicate Committed(h: State, s: nat)
    requires s < |h.sess|
  {
    var o := h.sess[s].owner;
    o.Held? && o.t < |h.pcs| && PastLook(h.pcs[o.t])
  }

  ghost predicate LineAt(h: State, s: nat) { s < |h.sess| ==> InLine(s, h.sess[s], Carried(h, s), Committed(h, s)) }

  /** A thread's step at the session itself. */
  lemma HereInLine(h: State, h': State, t: nat, s: nat)
    requires Inv(h) && Solo(h) && BatchesOk(h) && Local(h, h', t, s) && LineAt(h, s)
    ensures LineAt(h', s)
  {
    hide Inv, Solo, BatchesOk, Local, Moves, PairOk, SessOk, InLine, Own, Started, PastLook, PacketOk, Rely;
    LocalMoves(h, h', t, s);
    var v, w := ViewOf(h, t, s), ViewOf(h', t, s);
    InvPair(h, t, s);
    InvSess(h, s);
    assert Clean(s, v.pc, v.x, v.b) && (!Started(v.pc) ==> v.b == []) by { BatchIsClean(h, t, s); }
    var c, other := Carried(h, s), Committed(h, s);
    MovesInLine(t, s, v, w, c, other);
    var o := w.x.owner;
    if o.Held? && o.t != t {
      assert v.x.owner == o by { StepGuarantees(t, s, v, w, o.t); SameOwner(o.t, v.x, w.x); }
      if o.t < |h.pcs| { OtherBatch(h, h', t, s, o.t); }
    }
  }

  lemma SameOwner(u: nat, x: Sess, x': Sess)
    requires Rely(u, x, x') && x'.owner == Held(u)
    ensures x.owner == Held(u)
  {
  }

  lemma BatchIsClean(h: State, t: nat, s: nat)
    requires BatchesOk(h) && t < |h.pcs| == |h.rec| && s < |h.sess|
    ensures Clean(s, h.pcs[t], h.sess[s], Batch(h, t)) && (!Started(h.pcs[t]) ==> Batch(h, t) == [])
  {
    hide Started, PacketOk;
    assert BatchAt(h, t);
  }

  /** A thread's step at another session. */
  lemma ElsewhereInLine(h: State, h': State, t: nat, s1: nat, s: nat)
    requires Inv(h) && Solo(h) && Local(h, h', t, s1) && s != s1 && LineAt(h, s)
    ensures LineAt(h', s)
  {
    hide Inv, Solo, Local, Moves, InLine, Own, Started, PastLook, Batch;
    LocalMoves(h, h', t, s1);
    if s < |h.sess| && h.sess[s].owner.Held? {
      var u := h.sess[s].owner.t;
      if u < |h.pcs| {
        assert u != t by { InvPair(h, t, s); OwnsElsewhere(t, h.pcs[t], s, s1, h.sess[s]); }
        OtherBatch(h, h', t, s1, u);
      }
    }
  }

  lemma OwnsElsewhere(t: nat, pc: Pc, s: nat, s1: nat, x: Sess)
    requires PairOk(t, pc, s, x) && At(pc, s1) && s != s1
    ensures x.owner != Held(t)
  {
  }

  lemma QuietInLine(h: State, h': State, s: nat)
    requires Inv(h) && Step(h, h') && NothingPooled(h, h') && LineAt(h, s) && !exists t: nat, s: nat :: Local(h, h', t, s)
    ensures LineAt(h', s)
  {
    hide Inv, Step, NothingPooled, Local, InLine, Own, Batch;
    QuietElse(h, h');
    InvParts(h);
    if s < |h.sess| && h.sess[s].owner.Held? && h.sess[s].owner.t < |h.pcs| {
      QuietBatch(h, h', h.sess[s].owner.t);
    } else {
      StepKeeps(h, h');
      InvParts(h');
    }
  }

  lemma StepInLine(h: State, h': State, s: nat)
    requires Inv(h) && Solo(h) && BatchesOk(h) && Step(h, h') && NothingPooled(h, h') && LineAt(h, s)
    ensures LineAt(h', s)
  {
    hide Inv, Solo, BatchesOk, Local, Signals, Starts, NothingPooled, LineAt;
    if t: nat, s1: nat :| Local(h, h', t, s1) {
      if s1 == s { HereInLine(h, h', t, s); } else { ElsewhereInLine(h, h', t, s1, s); }
    } else {
      QuietInLine(h, h', s);
    }
  }

  lemma {:induction false} RunsInLine(hs: seq<State>, n: nat, s: nat)
    requires IsRun(hs) && n < |hs| && Unpooled(hs, n)
    ensures LineAt(hs[n], s)
  {
    hide Inv, Solo, BatchesOk, Start, Step, LineAt;
    if n == 0 {
      StartInLine(hs[0], s);
    } else {
      RunsInLine(hs, n - 1, s);
      UnpooledKeeps(hs, n - 1);
      NotPooled(hs, n - 1);
      StepInLine(hs[n - 1], hs[n], s);
    }
  }

  lemma StartInLine(h: State, s: nat)
    requires Start(h)
    ensures LineAt(h, s)
  {
  }

  /** In every run without a shared record: while a session is open, what was ever put
      into its queue is, in order, what was handed to tx, what the worker that serves it
      carries, and what still waits; and once it is closed, what was handed to tx is a
      beginning of what was put in. So each packet of a session is handed to tx at most
      once and in order, and only Close makes a difference between the two. */
  lemma SentInOrder(hs: seq<State>, n: nat, s: nat)
    requires IsRun(hs) && n < |hs| && Unpooled(hs, n) && s < |hs[n].sess|
    ensures var x := hs[n].sess[s];
            && (!x.die ==> x.pushed == Own(x.tx, s) + Carried(hs[n], s) + x.queue)
            && Own(x.tx, s) <= x.pushed
  {
    hide IsRun, Unpooled, Own, Carried, Committed;
    RunsInLine(hs, n, s);
  }

  /** When an open session is served by nobody and nothing waits, all of it was sent. */
  lemma AllIsSent(hs: seq<State>, n: nat, s: nat)
    requires IsRun(hs) && n < |hs| && Unpooled(hs, n) && s < |hs[n].sess|
    requires var x := hs[n].sess[s]; !x.die && !x.running && x.queue == []
    ensures Own(hs[n].sess[s].tx, s) == hs[n].sess[s].pushed
  {
    hide Own, Inv, Start, Step, Unpooled;
    SentInOrder(hs, n, s);
    RunsKeep(hs, n);
    InvSess(hs[n], s);
    assert Own(hs[n].sess[s].tx, s) + [] + [] == Own(hs[n].sess[s].tx, s);
  }
}
