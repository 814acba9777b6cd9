/** What the workers carry: whose packets are in a worker's batch, when a batch
    outlives the session it came from, and when two workers share one record. */
module WorkerBatches {
  import opened HandOff

  // --------------------------------------------------------------- shared records

  /** Two workers use record r. */
  ghost predicate Shared(h: State, r: nat) {
    exists t, u :: t != u && HasRecord(h, t, r) && HasRecord(h, u, r)
  }

  /** A worker starts on record r, out of the pool. */
  ghost predicate TakesPooled(h: State, h': State, r: nat) { exists t :: StartsPooled(h, h', t, r) }

  ghost predicate NothingPooled(h: State, h': State) { forall r :: !TakesPooled(h, h', r) }

  /** Between states i and i + 1 a worker starts on record r, out of the pool. */
  ghost predicate TakesPooledAt(hs: seq<State>, i: int, r: nat) {
    0 <= i < |hs| - 1 && TakesPooled(hs[i], hs[i + 1], r)
  }

  ghost predicate ReturnsRecord(h: State, h': State, t: nat, s: nat, r: nat) {
    Local(h, h', t, s) && h.rec[t] == r && PutsBack(ViewOf(h, t, s))
  }

  /** A worker that uses record r drops the batch of a closed session. */
  ghost predicate Returns(h: State, h': State, r: nat) { exists t, s :: ReturnsRecord(h, h', t, s, r) }

  ghost predicate ReturnsAt(hs: seq<State>, i: int, r: nat) { 0 <= i < |hs| - 1 && Returns(hs[i], hs[i + 1], r) }

  lemma KeepsRecord(h: State, h': State, t: nat, r: nat)
    requires |h.pcs| == |h.rec| && Step(h, h') && HasRecord(h, t, r)
    ensures HasRecord(h', t, r)
  {
    hide Local, Signals, Starts, Quiet, Started;
    if u: nat, s: nat :| Local(h, h', u, s) {
      LocalStarted(h, h', u, s, t);
    } else if u: nat :| Signals(h, h', u) {
      SignalMoves(h, h', u);
      QuietSize(h, h');
    } else {
      StartMoves(h, h');
      QuietSize(h, h');
    }
  }

  /** A worker gets its record when it starts, a new one or one from the pool. */
  lemma NewRecord(h: State, h': State, t: nat, r: nat)
    requires |h.pcs| == |h.rec| && Step(h, h') && !HasRecord(h, t, r) && HasRecord(h', t, r)
    ensures StartsPooled(h, h', t, r) || (StartsNew(h, h', t) && r == |h.recs|)
  {
    hide Local, Signals, Starts, Quiet, Started;
    if u: nat, s: nat :| Local(h, h', u, s) {
      LocalMoves(h, h', u, s);
      LocalStarted(h, h', u, s, t);
    } else if u: nat :| Signals(h, h', u) {
      SignalMoves(h, h', u);
      QuietSize(h, h');
    } else {
      StartRecords(h, h', t, r);
    }
  }

  lemma StartRecords(h: State, h': State, t: nat, r: nat)
    requires |h.pcs| == |h.rec| && Starts(h, h') && !HasRecord(h, t, r) && HasRecord(h', t, r)
    ensures StartsPooled(h, h', t, r) || (StartsNew(h, h', t) && r == |h.recs|)
  {
    hide Started;
  }

  lemma SharedStep(h: State, h': State, r: nat)
    requires Inv(h) && Step(h, h')
    ensures Shared(h', r) <==> Shared(h, r) || TakesPooled(h, h', r)
  {
    hide Inv, Step, Starts, StartsPooled, StartsNew, HasRecord, Recorded;
    InvParts(h);
    if t: nat, u: nat :| t != u && HasRecord(h, t, r) && HasRecord(h, u, r) {
      KeepsRecord(h, h', t, r);
      KeepsRecord(h, h', u, r);
    }
    if t: nat :| StartsPooled(h, h', t, r) {
      var u := PooledHasWorker(h, h', t, r);
      KeepsRecord(h, h', u, r);
    }
    if t: nat, u: nat :| t != u && HasRecord(h', t, r) && HasRecord(h', u, r) {
      if !HasRecord(h, t, r) { NewRecord(h, h', t, r); } else if !HasRecord(h, u, r) { NewRecord(h, h', u, r); }
      if StartsNew(h, h', t) && r == |h.recs| { NewIsUnshared(h, h', t, u); }
      else if StartsNew(h, h', u) && r == |h.recs| { NewIsUnshared(h, h', u, t); }
    }
  }

  lemma PooledHasWorker(h: State, h': State, t: nat, r: nat) returns (u: nat)
    requires Recorded(h) && StartsPooled(h, h', t, r)
    ensures u != t && HasRecord(h, u, r) && HasRecord(h', t, r)
  {
    u :| HasRecord(h, u, r);
  }

  lemma NewIsUnshared(h: State, h': State, t: nat, u: nat)
    requires Recorded(h) && StartsNew(h, h', t) && u != t
    ensures !HasRecord(h', u, |h.recs|)
  {
    assert RecordAt(h, u);
  }

  /** Two workers share a record exactly when one of them started on it out of the
      pool, in every run. */
  lemma {:induction false} SharedIff(hs: seq<State>, n: nat, r: nat)
    requires IsRun(hs) && n < |hs|
    ensures Shared(hs[n], r) <==> exists i :: 0 <= i < n && TakesPooledAt(hs, i, r)
  {
    hide Inv, Start, Step, Shared, TakesPooled;
    if n == 0 {
      StartUnshared(hs[0], r);
    } else {
      RunsKeep(hs, n - 1);
      SharedIff(hs, n - 1, r);
      SharedStep(hs[n - 1], hs[n], r);
      assert TakesPooledAt(hs, n - 1, r) <==> TakesPooled(hs[n - 1], hs[n], r);
    }
  }

  lemma StartUnshared(h: State, r: nat)
    requires Start(h)
    ensures !Shared(h, r) && r !in h.pool
  {
  }

  /** Every record that a worker takes from the pool had been put there by a worker
      that dropped a closed session's batch, and that goes on using it. */
  lemma {:induction false} PooledWasReturned(hs: seq<State>, n: nat, r: nat)
    requires IsRun(hs) && n < |hs| && r in hs[n].pool
    ensures exists i :: 0 <= i < n && ReturnsAt(hs, i, r)
    ensures exists t :: HasRecord(hs[n], t, r)
  {
    hide Inv, Start, Step, HasRecord, Returns;
    RunsKeep(hs, n);
    assert Recorded(hs[n]) by { InvParts(hs[n]); }
    if n == 0 {
      StartUnshared(hs[0], r);
    } else if r in hs[n - 1].pool {
      PooledWasReturned(hs, n - 1, r);
    } else {
      RunsKeep(hs, n - 1);
      PoolStep(hs[n - 1], hs[n], r);
      assert ReturnsAt(hs, n - 1, r);
    }
  }

  lemma PoolStep(h: State, h': State, r: nat)
    requires Step(h, h') && r in h'.pool && r !in h.pool
    ensures Returns(h, h', r)
  {
    hide Started, Produces, Closes, Works, Finishes, Batch;
    var t: nat, s: nat :| Local(h, h', t, s);
    assert ReturnsRecord(h, h', t, s, r);
  }

  // ------------------------------------------------------- batches of their own

  /** The worker is between taking a packet and sending its batch. */
  ghost predicate Carries(pc: Pc, x: Sess) {
    pc.Batched? || pc.Flushing? || pc.Sending? || pc.InTx? || (pc.Popping? && (pc.n >= BUDGET || x.queue != []))
  }

  /** A packet in the batch belongs to the session being processed, or to one that
      was closed. */
  ghost predicate PacketOk(pc: Pc, p: Packet, x: Sess) {
    x.die || (Carries(pc, x) && pc.s == p.s)
  }

  lemma BatchMovesWorking(t: nat, s: nat, v: View, w: View, p: Packet, x: Sess, x': Sess)
    requires At(v.pc, s) && Works(t, s, v, w) && PairOk(t, v.pc, s, v.x) && p in w.b
    requires (p.s == s ==> x == v.x && x' == w.x) && (p.s != s ==> x' == x)
    requires p in v.b ==> PacketOk(v.pc, p, x)
    ensures PacketOk(w.pc, p, x')
  {
  }

  lemma BatchMovesOtherwise(t: nat, s: nat, v: View, w: View, p: Packet, x: Sess, x': Sess)
    requires At(v.pc, s) && (Produces(t, s, v, w) || Closes(t, s, v, w) || Finishes(t, s, v, w)) && PairOk(t, v.pc, s, v.x) && p in w.b
    requires (p.s == s ==> x == v.x && x' == w.x) && (p.s != s ==> x' == x)
    requires p in v.b ==> PacketOk(v.pc, p, x)
    ensures PacketOk(w.pc, p, x')
  {
  }

  lemma BatchMoves(t: nat, s: nat, v: View, w: View, p: Packet, x: Sess, x': Sess)
    requires Moves(t, s, v, w) && PairOk(t, v.pc, s, v.x) && p in w.b
    requires (p.s == s ==> x == v.x && x' == w.x) && (p.s != s ==> x' == x)
    requires p in v.b ==> PacketOk(v.pc, p, x)
    ensures PacketOk(w.pc, p, x')
  {
    hide Produces, Closes, Works, Finishes;
    if Works(t, s, v, w) { BatchMovesWorking(t, s, v, w, p, x, x'); } else { BatchMovesOtherwise(t, s, v, w, p, x, x'); }
  }

  /** The worker is in postProcess. */
  ghost predicate Inside(pc: Pc) {
    pc.Popping? || pc.Batched? || pc.Flushing? || pc.Sending? || pc.InTx? || pc.Deciding?
  }

  /** What the worker took in this pass is still at the end of its batch, unless the
      batch was sent; and a pass that ran its course has sent its batch.  A pass takes at
      most 256 packets, and a batch that has 64 is sent before more is taken. */
  ghost predicate Fed(pc: Pc, b: seq<Packet>) {
    && ((pc.Popping? || pc.Batched? || pc.Flushing? || pc.Sending? || pc.InTx?) ==> pc.n <= BUDGET)
    && (pc.Popping? || !Inside(pc) ==> |b| < BATCH)
    && (pc.Deciding? ==> b == [])
    && (pc.Batched? ==> b != [] && b[|b| - 1].s == pc.s)
    && (pc.Popping? && pc.n > 0 && b != [] ==> b[|b| - 1].s == pc.s)
  }

  lemma FedMovesWorking(t: nat, s: nat, v: View, w: View)
    requires At(v.pc, s) && Works(t, s, v, w) && Fed(v.pc, v.b)
    ensures Fed(w.pc, w.b)
  {
  }

  lemma FedMovesOtherwise(t: nat, s: nat, v: View, w: View)
    requires At(v.pc, s) && (Produces(t, s, v, w) || Closes(t, s, v, w) || Finishes(t, s, v, w)) && Fed(v.pc, v.b)
    ensures Fed(w.pc, w.b)
  {
  }

  lemma FedMoves(t: nat, s: nat, v: View, w: View)
    requires Moves(t, s, v, w) && Fed(v.pc, v.b)
    ensures Fed(w.pc, w.b)
  {
    hide Produces, Closes, Works, Finishes;
    if Works(t, s, v, w) { FedMovesWorking(t, s, v, w); } else { FedMovesOtherwise(t, s, v, w); }
  }

  lemma BatchRelies(u: nat, pc: Pc, p: Packet, x: Sess, x': Sess)
    requires PacketOk(pc, p, x) && Rely(u, x, x') && PairOk(u, pc, p.s, x)
    ensures PacketOk(pc, p, x')
  {
  }

  lemma SamePlaceBatch(pc: Pc, pc': Pc)
    requires SamePlace(pc, pc')
    ensures forall p, x :: PacketOk(pc, p, x) ==> PacketOk(pc', p, x)
    ensures forall b :: Fed(pc, b) ==> Fed(pc', b)
  {
  }

  lemma NewPacket(t: nat, s: nat, v: View, w: View, p: Packet)
    requires Moves(t, s, v, w) && p in w.b
    ensures p in v.b || p.s == s
  {
  }

  /** No two workers share a record. */
  ghost predicate Solo(h: State) { forall r :: !Shared(h, r) }

  ghost predicate BatchAt(h: State, t: nat) {
    t < |h.pcs| && t < |h.rec| ==> forall p :: p in Batch(h, t) ==> p.s < |h.sess| && PacketOk(h.pcs[t], p, h.sess[p.s])
  }

  ghost predicate FedAt(h: State, t: nat) { t < |h.pcs| && t < |h.rec| ==> Fed(h.pcs[t], Batch(h, t)) }

  ghost predicate BatchesOk(h: State) { (forall t :: BatchAt(h, t)) && forall t :: FedAt(h, t) }

  /** Without sharing, another thread's step leaves a batch alone. */
  lemma OtherBatch(h: State, h': State, t: nat, s: nat, u: nat)
    requires Inv(h) && Solo(h) && Local(h, h', t, s) && u < |h.pcs| && u != t
    ensures u < |h.rec| && u < |h'.pcs| && u < |h'.rec| && Batch(h', u) == Batch(h, u)
  {
    hide Inv, Produces, Closes, Works, Finishes, IsWorker;
    LocalMoves(h, h', t, s);
    if Started(h.pcs[t]) && Started(h.pcs[u]) {
      assert !Shared(h, h.rec[t]) && HasRecord(h, t, h.rec[t]);
      assert !HasRecord(h, u, h.rec[t]);
    }
  }

  lemma QuietBatch(h: State, h': State, u: nat)
    requires Inv(h) && Step(h, h') && u < |h.pcs| && !exists t: nat, s: nat :: Local(h, h', t, s)
    requires NothingPooled(h, h')
    ensures u < |h.rec| && u < |h'.pcs| && u < |h'.rec|
    ensures SamePlace(h.pcs[u], h'.pcs[u]) && Batch(h', u) == Batch(h, u)
  {
    hide Inv, Local, IsWorker, Recorded;
    InvParts(h);
    if t: nat :| Signals(h, h', t) {
      hide Signals;
      SignalMoves(h, h', t);
    } else {
      forall t: nat, r: nat ensures !StartsPooled(h, h', t, r) { assert !TakesPooled(h, h', r); }
      var t: nat :| StartsNew(h, h', t);
      assert RecordAt(h, u) by { RecordIn(h, u); }
    }
  }

  lemma RecordIn(h: State, t: nat)
    requires Recorded(h)
    ensures RecordAt(h, t)
  {
  }

  lemma LocalBatch(h: State, h': State, t: nat, s: nat, u: nat)
    requires Inv(h) && Solo(h) && BatchesOk(h) && Local(h, h', t, s)
    ensures BatchAt(h', u)
  {
    hide Local, Moves, PairOk, SessOk, AttendedAt, Staffed, Recorded, Distinct, PacketOk, Rely, Batch, Solo;
    LocalMoves(h, h', t, s);
    var v, w := ViewOf(h, t, s), ViewOf(h', t, s);
    assert PairAt(h, t, s) && SessAt(h, s) && BatchAt(h, u);
    if u < |h.pcs| {
      if u != t { OtherBatch(h, h', t, s, u); }
      forall p | p in Batch(h', u) ensures p.s < |h'.sess| && PacketOk(h'.pcs[u], p, h'.sess[p.s]) {
        if u == t {
          NewPacket(t, s, v, w, p);
          BatchMoves(t, s, v, w, p, h.sess[p.s], h'.sess[p.s]);
        } else if p.s == s {
          assert PairAt(h, u, s);
          StepGuarantees(t, s, v, w, u);
          BatchRelies(u, h.pcs[u], p, v.x, w.x);
        }
      }
    }
  }

  lemma LocalFed(h: State, h': State, t: nat, s: nat, u: nat)
    requires Inv(h) && Solo(h) && BatchesOk(h) && Local(h, h', t, s)
    ensures FedAt(h', u)
  {
    hide Local, Inv, Moves, BatchAt, Fed, Batch, Solo;
    LocalMoves(h, h', t, s);
    assert FedAt(h, u);
    if u == t { FedMoves(t, s, ViewOf(h, t, s), ViewOf(h', t, s)); }
    else if u < |h.pcs| { OtherBatch(h, h', t, s, u); }
  }

  lemma BatchedStep(h: State, h': State)
    requires Inv(h) && Solo(h) && BatchesOk(h) && Step(h, h') && NothingPooled(h, h')
    ensures BatchesOk(h')
  {
    hide Inv, Solo, Local, Signals, Starts, TakesPooled, PacketOk, Fed, SamePlace, Batch;
    if t: nat, s: nat :| Local(h, h', t, s) {
      forall u: nat ensures BatchAt(h', u) { LocalBatch(h, h', t, s, u); }
      forall u: nat ensures FedAt(h', u) { LocalFed(h, h', t, s, u); }
    } else {
      QuietElse(h, h');
      forall u: nat ensures BatchAt(h', u) && FedAt(h', u) {
        assert BatchAt(h, u) && FedAt(h, u);
        if u < |h.pcs| {
          QuietBatch(h, h', u);
          SamePlaceBatch(h.pcs[u], h'.pcs[u]);
        }
      }
    }
  }

  /** No worker has started on a record out of the pool, up to state n. */
  ghost predicate Unpooled(hs: seq<State>, n: nat) { forall i, r :: 0 <= i < n ==> !TakesPooledAt(hs, i, r) }

  lemma NotPooled(hs: seq<State>, n: nat)
    requires n + 1 < |hs| && Unpooled(hs, n + 1)
    ensures NothingPooled(hs[n], hs[n + 1])
  {
    hide TakesPooled;
    var h, h' := hs[n], hs[n + 1];
    forall r: nat ensures !TakesPooled(h, h', r) { assert !TakesPooledAt(hs, n, r); }
  }

  lemma StartBatched(h: State)
    requires Start(h)
    ensures BatchesOk(h)
  {
  }

  lemma {:induction false} UnpooledKeeps(hs: seq<State>, n: nat)
    requires IsRun(hs) && n < |hs| && Unpooled(hs, n)
    ensures Inv(hs[n]) && Solo(hs[n]) && BatchesOk(hs[n])
    ensures |hs[n].sess| == |hs[0].sess| && |hs[n].pcs| == |hs[0].pcs| == |hs[n].rec|
  {
    hide Inv, Start, Step, BatchesOk, TakesPooled, Shared;
    RunsKeep(hs, n);
    InvParts(hs[n]);
    assert Solo(hs[n]) by { forall r: nat ensures !Shared(hs[n], r) { SharedIff(hs, n, r); } }
    if n == 0 {
      StartBatched(hs[0]);
    } else {
      UnpooledKeeps(hs, n - 1);
      NotPooled(hs, n - 1);
      BatchedStep(hs[n - 1], hs[n]);
    }
  }

  /** While no worker starts on a pooled record, what a worker sends on a session came
      from that session or from one that has been closed; so while no session has been
      closed, only from that session. */
  lemma BatchesAreOwn(hs: seq<State>, n: nat, t: nat, p: Packet)
    requires IsRun(hs) && n < |hs| && Unpooled(hs, n) && t < |hs[n].pcs| == |hs[n].rec| && p in Batch(hs[n], t)
    ensures p.s < |hs[n].sess|
    ensures hs[n].sess[p.s].die || (Owns(hs[n].pcs[t]) && hs[n].pcs[t].s == p.s)
  {
    hide IsRun, Unpooled, Inv, Solo, Batch;
    UnpooledKeeps(hs, n);
    assert BatchAt(hs[n], t);
  }

  /** In the same runs a worker takes at most 256 packets of a session in one pass, and
      takes no more into a batch that has 64. */
  lemma PassIsBounded(hs: seq<State>, n: nat, t: nat)
    requires IsRun(hs) && n < |hs| && Unpooled(hs, n) && t < |hs[n].pcs| == |hs[n].rec|
    ensures hs[n].pcs[t].Batched? ==> hs[n].pcs[t].n <= BUDGET
    ensures hs[n].pcs[t].Popping? ==> hs[n].pcs[t].n <= BUDGET && |Batch(hs[n], t)| < BATCH
  {
    hide IsRun, Unpooled, Inv, Solo, Batch;
    UnpooledKeeps(hs, n);
    assert FedAt(hs[n], t);
  }

  // ------------------------------------------- batches that leave their session

  /** postProcess's early return: within the budget the pop finds nothing, while the
      batch is not empty. */
  ghost predicate ReturnsEarly(h: State, t: nat) {
    && t < |h.pcs| && t < |h.rec| && h.pcs[t].Popping? && h.pcs[t].s < |h.sess|
    && h.pcs[t].n < BUDGET && h.sess[h.pcs[t].s].queue == [] && Batch(h, t) != []
  }

  /** What a step does to thread t and its batch: nothing, or a step of its own. */
  lemma StepOf(h: State, h': State, t: nat) returns (own: bool, s: nat)
    requires Inv(h) && Solo(h) && Step(h, h') && t < |h.pcs| && NothingPooled(h, h')
    ensures t < |h.rec| && t < |h'.pcs| && t < |h'.rec|
    ensures own ==> s < |h.sess| && s < |h'.sess| && At(h.pcs[t], s) && PairOk(t, h.pcs[t], s, h.sess[s]) && Moves(t, s, ViewOf(h, t, s), ViewOf(h', t, s))
    ensures !own ==> Batch(h', t) == Batch(h, t) && SamePlace(h.pcs[t], h'.pcs[t])
  {
    hide Inv, Solo, Local, Signals, Starts, NothingPooled, Moves, PairOk, Batch;
    own, s := false, 0;
    if u: nat, s1: nat :| Local(h, h', u, s1) {
      LocalMoves(h, h', u, s1);
      if u == t {
        own, s := true, s1;
        InvPair(h, t, s);
      } else {
        OtherBatch(h, h', u, s1, t);
      }
    } else {
      QuietBatch(h, h', t);
    }
  }

  lemma ThreadStep(hs: seq<State>, n: nat, t: nat) returns (own: bool, s: nat)
    requires IsRun(hs) && n + 1 < |hs| && Unpooled(hs, n + 1) && t < |hs[n].pcs|
    ensures t < |hs[n].rec| && t < |hs[n + 1].pcs| && t < |hs[n + 1].rec|
    ensures BatchAt(hs[n], t) && FedAt(hs[n], t)
    ensures own ==> s < |hs[n].sess| && s < |hs[n + 1].sess| && At(hs[n].pcs[t], s) && PairOk(t, hs[n].pcs[t], s, hs[n].sess[s])
                    && Moves(t, s, ViewOf(hs[n], t, s), ViewOf(hs[n + 1], t, s))
    ensures !own ==> Batch(hs[n + 1], t) == Batch(hs[n], t) && SamePlace(hs[n].pcs[t], hs[n + 1].pcs[t])
  {
    hide Inv, Solo, Start, Step, NothingPooled, Moves, BatchAt, FedAt, SamePlace, PairOk, Batch;
    UnpooledKeeps(hs, n);
    NotPooled(hs, n);
    own, s := StepOf(hs[n], hs[n + 1], t);
    assert BatchAt(hs[n], t) && FedAt(hs[n], t);
  }

  lemma MovesOut(t: nat, s: nat, v: View, w: View)
    requires Moves(t, s, v, w) && Fed(v.pc, v.b) && !Inside(w.pc)
    ensures !Inside(v.pc) ==> w.b == v.b
    ensures Inside(v.pc) ==>
              (w.b != [] <==> v.pc.Popping? && v.pc.n < BUDGET && v.x.queue == [] && v.b != [])
  {
  }

  /** Exactly when a worker leaves postProcess with packets still in its batch, in
      every run; everything it then carries belongs to closed sessions, and when it
      took any of it in this pass the session it leaves is one of them. */
  lemma LeavesWithBatch(hs: seq<State>, n: nat, t: nat)
    requires IsRun(hs) && n + 1 < |hs| && Unpooled(hs, n + 1) && t < |hs[n].pcs| && t < |hs[n + 1].pcs| == |hs[n + 1].rec|
    requires Inside(hs[n].pcs[t]) && !Inside(hs[n + 1].pcs[t])
    ensures Batch(hs[n + 1], t) != [] <==> ReturnsEarly(hs[n], t)
    ensures ReturnsEarly(hs[n], t) ==> forall p :: p in Batch(hs[n], t) ==> p.s < |hs[n].sess| && hs[n].sess[p.s].die
    ensures ReturnsEarly(hs[n], t) && hs[n].pcs[t].n > 0 ==> hs[n].sess[hs[n].pcs[t].s].die
  {
    hide Start, Step, Moves;
    var own, s := ThreadStep(hs, n, t);
    assert FedAt(hs[n], t) && BatchAt(hs[n], t);
    MovesOut(t, s, ViewOf(hs[n], t, s), ViewOf(hs[n + 1], t, s));
  }

  /** From state m + 1 to state n thread t is never in postProcess. */
  ghost predicate StaysOut(hs: seq<State>, m: int, n: int, t: nat) {
    forall k :: m < k <= n && 0 <= k < |hs| ==> OutAt(hs[k], t)
  }

  ghost predicate OutAt(h: State, t: nat) { t < |h.pcs| && !Inside(h.pcs[t]) }

  /** A worker outside postProcess carries packets exactly when it came out of it by
      the early return; so the next session it serves gets them. */
  lemma {:induction false} LeftOverIff(hs: seq<State>, n: nat, t: nat)
    requires IsRun(hs) && n < |hs| && Unpooled(hs, n) && t < |hs[0].pcs| && OutAt(hs[n], t)
    ensures t < |hs[n].rec|
    ensures Batch(hs[n], t) != [] <==> exists m :: 0 <= m < n && ReturnsEarly(hs[m], t) && StaysOut(hs, m, n, t)
  {
    hide Inv, Step, ReturnsEarly, Inside;
    RunsKeep(hs, n);
    assert t < |hs[n].rec| by { InvSizes(hs[n]); }
    if n > 0 {
      RunsKeep(hs, n - 1);
      if OutAt(hs[n - 1], t) {
        LeftOverIff(hs, n - 1, t);
        OutKeeps(hs, n - 1, t);
        if m :| 0 <= m < n - 1 && ReturnsEarly(hs[m], t) && StaysOut(hs, m, n - 1, t) { assert StaysOut(hs, m, n, t); }
        if m :| 0 <= m < n && ReturnsEarly(hs[m], t) && StaysOut(hs, m, n, t) {
          EarlyIsInside(hs[m], t);
          assert m != n - 1 && StaysOut(hs, m, n - 1, t);
        }
      } else {
        InvSizes(hs[n]);
        LeavesWithBatch(hs, n - 1, t);
        if ReturnsEarly(hs[n - 1], t) { assert StaysOut(hs, n - 1, n, t); }
        if m :| 0 <= m < n && ReturnsEarly(hs[m], t) && StaysOut(hs, m, n, t) { assert m == n - 1; }
      }
    }
  }

  lemma InvSizes(h: State)
    requires Inv(h)
    ensures |h.pcs| == |h.rec|
  {
  }

  lemma EarlyIsInside(h: State, t: nat)
    requires ReturnsEarly(h, t)
    ensures !OutAt(h, t)
  {
  }

  lemma OutKeeps(hs: seq<State>, n: nat, t: nat)
    requires IsRun(hs) && n + 1 < |hs| && Unpooled(hs, n + 1) && OutAt(hs[n], t) && OutAt(hs[n + 1], t)
    ensures t < |hs[n].rec| && t < |hs[n + 1].rec| && Batch(hs[n + 1], t) == Batch(hs[n], t)
  {
    hide Start, Step, Moves;
    var own, s := ThreadStep(hs, n, t);
    assert FedAt(hs[n], t);
    if own { MovesOut(t, s, ViewOf(hs[n], t, s), ViewOf(hs[n + 1], t, s)); }
  }

  /** Packet p was in the worker's batch when it entered postProcess after state m,
      and the batch has not been sent since. */
  ghost predicate CarriedIn(hs: seq<State>, m: int, n: int, t: nat, p: Packet) {
    && 0 <= m < n < |hs| && OutAt(hs[m], t) && t < |hs[m].rec| && p in Batch(hs[m], t)
    && forall k :: m < k <= n ==> StillIn(hs[m], hs[k], t)
  }

  ghost predicate StillIn(h: State, h': State, t: nat) {
    && t < |h.pcs| && t < |h.rec| && t < |h'.rec| && t < |h'.pcs|
    && Inside(h'.pcs[t]) && Batch(h, t) <= Batch(h', t)
  }

  lemma MovesInWorking(t: nat, s: nat, v: View, w: View)
    requires At(v.pc, s) && Works(t, s, v, w) && Inside(w.pc)
    ensures w.pc.s == s
    ensures !Inside(v.pc) ==> v.pc == Got(s) && w.b == v.b && !v.x.die
    ensures Inside(v.pc) ==> v.pc.s == s && (w.b == [] || v.b <= w.b)
  {
  }

  lemma InsideByWork(t: nat, s: nat, v: View, w: View)
    requires Moves(t, s, v, w) && Inside(w.pc)
    ensures Works(t, s, v, w)
  {
    hide Works;
  }

  lemma MovesIn(t: nat, s: nat, v: View, w: View)
    requires Moves(t, s, v, w) && Inside(w.pc)
    ensures w.pc.s == s
    ensures !Inside(v.pc) ==> v.pc == Got(s) && w.b == v.b && !v.x.die
    ensures Inside(v.pc) ==> v.pc.s == s && (w.b == [] || v.b <= w.b)
  {
    InsideByWork(t, s, v, w);
    hide Produces, Closes, Works, Finishes;
    MovesInWorking(t, s, v, w);
  }

  /** A step of a worker that is in postProcess afterwards. */
  lemma InStep(hs: seq<State>, n: nat, t: nat)
    requires IsRun(hs) && n + 1 < |hs| && Unpooled(hs, n + 1) && t < |hs[n].pcs| && t < |hs[n + 1].pcs| && Inside(hs[n + 1].pcs[t])
    ensures t < |hs[n].rec| && t < |hs[n + 1].rec|
    ensures !Inside(hs[n].pcs[t]) ==>
              && hs[n + 1].pcs[t].s < |hs[n].sess|
              && Batch(hs[n + 1], t) == Batch(hs[n], t) && !hs[n].sess[hs[n + 1].pcs[t].s].die
              && forall p :: p in Batch(hs[n], t) ==> p.s != hs[n + 1].pcs[t].s
    ensures Inside(hs[n].pcs[t]) ==>
              && hs[n].pcs[t].s == hs[n + 1].pcs[t].s
              && (Batch(hs[n + 1], t) == [] || Batch(hs[n], t) <= Batch(hs[n + 1], t))
    ensures forall p :: p in Batch(hs[n + 1], t) ==> p in Batch(hs[n], t) || p.s == hs[n + 1].pcs[t].s
  {
    hide Start, Step, Moves;
    var own, s := ThreadStep(hs, n, t);
    assert BatchAt(hs[n], t);
    if own {
      var v, w := ViewOf(hs[n], t, s), ViewOf(hs[n + 1], t, s);
      MovesIn(t, s, v, w);
      forall p | p in w.b ensures p in v.b || p.s == s { NewPacket(t, s, v, w, p); }
    }
  }

  /** Exactly when a worker has another session's packet in its batch while it serves
      a session: it brought the packet in, and has not sent its batch since. */
  lemma {:induction false} ForeignIff(hs: seq<State>, n: nat, t: nat, p: Packet)
    requires IsRun(hs) && n < |hs| && Unpooled(hs, n) && t < |hs[0].pcs| && t < |hs[n].pcs| == |hs[n].rec| && Inside(hs[n].pcs[t])
    ensures p in Batch(hs[n], t) && p.s != hs[n].pcs[t].s <==> exists m :: CarriedIn(hs, m, n, t, p)
  {
    hide Inv, Step, Start;
    RunsKeep(hs, n);
    if n == 0 {
      StartOutside(hs[0], t);
    } else {
      RunsKeep(hs, n - 1);
      InStep(hs, n - 1, t);
      if !Inside(hs[n - 1].pcs[t]) {
        if p in Batch(hs[n], t) { assert StillIn(hs[n - 1], hs[n], t) && CarriedIn(hs, n - 1, n, t, p); }
        if m :| CarriedIn(hs, m, n, t, p) { assert m < n - 1 ==> StillIn(hs[m], hs[n - 1], t); }
      } else {
        InvSizes(hs[n - 1]);
        ForeignIff(hs, n - 1, t, p);
        if p in Batch(hs[n], t) && p.s != hs[n].pcs[t].s {
          var m :| CarriedIn(hs, m, n - 1, t, p);
          assert StillIn(hs[m], hs[n - 1], t);
          assert StillIn(hs[m], hs[n], t) && CarriedIn(hs, m, n, t, p);
        }
        if m :| CarriedIn(hs, m, n, t, p) {
          assert m != n - 1 && CarriedIn(hs, m, n - 1, t, p) && StillIn(hs[m], hs[n], t);
        }
      }
    }
  }

  lemma StartOutside(h: State, t: nat)
    requires Start(h) && t < |h.pcs|
    ensures !Inside(h.pcs[t])
  {
  }

  /** A worker that serves no session holds packets of closed sessions only. */
  lemma OutsideHoldsClosed(hs: seq<State>, n: nat, t: nat, p: Packet)
    requires IsRun(hs) && n < |hs| && Unpooled(hs, n) && t < |hs[n].pcs| == |hs[n].rec| && !Owns(hs[n].pcs[t]) && p in Batch(hs[n], t)
    ensures p.s < |hs[n].sess| && hs[n].sess[p.s].die
  {
    hide IsRun;
    BatchesAreOwn(hs, n, t, p);
  }
}
