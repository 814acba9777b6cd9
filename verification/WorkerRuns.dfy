/** Two runs of the hand-off, step by step: one in which a batch outlives the session
    it was taken from, and one in which two workers share a record. */
module WorkerRuns {
  import opened HandOff
  import opened WorkerBatches

  ghost predicate Reachable(h: State) { exists hs :: IsRun(hs) && hs[|hs| - 1] == h }

  lemma StartIsReachable(h: State)
    requires Start(h)
    ensures Reachable(h)
  {
    hide Start;
    assert IsRun([h]);
  }

  lemma Extend(h: State, h': State)
    requires Reachable(h) && Step(h, h')
    ensures Reachable(h')
  {
    hide Start, Step;
    var hs :| IsRun(hs) && hs[|hs| - 1] == h;
    var hs' := hs + [h'];
    assert IsRun(hs') && hs'[|hs'| - 1] == h';
  }

  // ------------------------------------------------------- steps of one thread

  /** Thread t of state h can be in the place, and hold the batch, that v says. */
  ghost predicate Fits(h: State, t: nat, s: nat, v: View) {
    && t < |h.pcs| == |h.rec| && s < |h.sess| && (Started(h.pcs[t]) <==> Started(v.pc))
    && if Started(v.pc) then h.rec[t] < |h.recs| else v.b == []
  }

  lemma Seen(h: State, t: nat, s: nat, v: View)
    requires Fits(h, t, s, v)
    ensures var h' := Replaced(h, t, s, v);
            |h'.pcs| == |h.pcs| && h'.rec == h.rec && |h'.sess| == |h.sess| && |h'.recs| == |h.recs| && ViewOf(h', t, s) == v
  {
    hide IsWorker;
  }

  lemma Twice(h: State, t: nat, s: nat, v: View, w: View)
    requires Fits(h, t, s, v) && Fits(h, t, s, w)
    ensures Fits(Replaced(h, t, s, v), t, s, w)
    ensures Replaced(Replaced(h, t, s, v), t, s, w) == Replaced(h, t, s, w)
  {
    hide IsWorker;
    var h1 := Replaced(h, t, s, v);
    assert h1.sess[s := w.x] == h.sess[s := w.x] && h1.pcs[t := w.pc] == h.pcs[t := w.pc];
    if Started(v.pc) { assert h1.recs[h.rec[t] := w.b] == h.recs[h.rec[t] := w.b]; }
  }

  lemma Same(h: State, t: nat, s: nat)
    requires t < |h.pcs| == |h.rec| && s < |h.sess| && (Started(h.pcs[t]) ==> h.rec[t] < |h.recs|)
    ensures Fits(h, t, s, ViewOf(h, t, s)) && Replaced(h, t, s, ViewOf(h, t, s)) == h
  {
    hide IsWorker;
    assert h.sess[s := h.sess[s]] == h.sess && h.pcs[t := h.pcs[t]] == h.pcs;
    if Started(h.pcs[t]) { assert h.recs[h.rec[t] := h.recs[h.rec[t]]] == h.recs; }
  }

  /** State h with thread t, at session s, seen as v can be reached. */
  ghost predicate Reaches(h: State, t: nat, s: nat, v: View) { Fits(h, t, s, v) && Reachable(Replaced(h, t, s, v)) }

  /** Thread t moves on from v to w. */
  lemma Go(h: State, t: nat, s: nat, v: View, w: View)
    requires Reaches(h, t, s, v) && Moves(t, s, v, w) && !PutsBack(v) && (!Started(v.pc) ==> w.b == [])
    ensures Reaches(h, t, s, w)
  {
    hide Reachable, Produces, Closes, Works, Finishes, Started, Replaced, ViewOf;
    StaysStarted(t, s, v, w);
    Seen(h, t, s, v);
    Seen(h, t, s, w);
    Twice(h, t, s, v, w);
    var h1, h2 := Replaced(h, t, s, v), Replaced(h, t, s, w);
    assert h2.pool == h1.pool by { SamePool(h, t, s, v); SamePool(h, t, s, w); }
    assert h1.pcs[t] == v.pc by { Place(h1, t, s); }
    assert Local(h1, h2, t, s);
    Extend(h1, h2);
  }

  lemma SamePool(h: State, t: nat, s: nat, v: View)
    requires Fits(h, t, s, v)
    ensures Replaced(h, t, s, v).pool == h.pool
  {
  }

  lemma Place(h: State, t: nat, s: nat)
    requires t < |h.pcs| && t < |h.rec| && s < |h.sess|
    ensures ViewOf(h, t, s).pc == h.pcs[t]
  {
  }

  lemma Begin(h: State, t: nat, s: nat)
    requires Reachable(h) && t < |h.pcs| == |h.rec| && s < |h.sess| && (Started(h.pcs[t]) ==> h.rec[t] < |h.recs|)
    ensures Reaches(h, t, s, ViewOf(h, t, s))
  {
    hide Reachable, Started;
    Same(h, t, s);
  }

  lemma Arrive(h: State, t: nat, s: nat, v: View, h': State)
    requires Reaches(h, t, s, v) && h' == Replaced(h, t, s, v)
    ensures Reachable(h')
  {
  }

  // ---------------------------------------------------------- paths of one thread

  /** A caller puts packet r into an idle session's queue. */
  lemma Pushes(h: State, t: nat, s: nat, v: View, r: nat)
    requires Reaches(h, t, s, v) && v.pc == Idle && v.b == [] && v.x.mu == Free && !v.x.die && v.x.queue == []
    ensures Reaches(h, t, s, v.(pc := Pushed(s, false), x := v.x.(mu := By(t), queue := [r], pushed := v.x.pushed + [r])))
  {
    hide Reaches, Closes, Works, Finishes;
    var w := v.(pc := Holding(s, false), x := v.x.(mu := By(t)));
    Go(h, t, s, v, w);
    Go(h, t, s, w, w.(pc := Cleared(s, false)));
    assert w.x.queue + [r] == [r];
    Go(h, t, s, w.(pc := Cleared(s, false)), w.(pc := Pushed(s, false), x := w.x.(queue := [r], pushed := w.x.pushed + [r])));
  }

  /** A caller puts packet r into an idle session's queue and claims the session. */
  lemma Offer(h: State, t: nat, s: nat, x: Sess, r: nat)
    requires Reaches(h, t, s, View(Idle, x, [], [])) && x.mu == Free && !x.die && x.queue == [] && !x.running
    ensures Reaches(h, t, s, View(Signalling(s, false), x.(mu := By(t), queue := [r], pushed := x.pushed + [r], running := true, owner := Queued), [], [s]))
  {
    hide Reaches, Closes, Works, Finishes;
    Pushes(h, t, s, View(Idle, x, [], []), r);
    var w := View(Pushed(s, false), x.(mu := By(t), queue := [r], pushed := x.pushed + [r]), [], []);
    var w' := w.(pc := Claimed(s, false), x := w.x.(running := true, owner := Held(t)));
    Go(h, t, s, w, w');
    assert w'.q + [s] == [s];
    Go(h, t, s, w', View(Signalling(s, false), w'.x.(owner := Queued), [], [s]));
  }

  /** A caller in its critical section puts packet r behind the one that waits. */
  lemma OfferNext(h: State, t: nat, s: nat, v: View, r: nat)
    requires Reaches(h, t, s, v) && v.pc == Holding(s, false) && v.b == [] && !v.x.die && |v.x.queue| == 1 && v.x.running
    ensures Reaches(h, t, s, v.(x := v.x.(queue := v.x.queue + [r], pushed := v.x.pushed + [r])))
  {
    hide Reaches, Closes, Works, Finishes;
    var y := v.x.(queue := v.x.queue + [r], pushed := v.x.pushed + [r]);
    Go(h, t, s, v, View(Cleared(s, false), v.x, [], v.q));
    Go(h, t, s, View(Cleared(s, false), v.x, [], v.q), View(Pushed(s, false), y, [], v.q));
    Go(h, t, s, View(Pushed(s, false), y, [], v.q), View(Holding(s, false), y, [], v.q));
  }

  lemma Leave(h: State, t: nat, s: nat, v: View)
    requires Reaches(h, t, s, v) && v.pc == Holding(s, false) && v.b == []
    ensures Reaches(h, t, s, v.(pc := Idle, x := v.x.(mu := Free)))
  {
    hide Reaches, Closes, Works, Finishes;
    Go(h, t, s, v, v.(pc := Idle, x := v.x.(mu := Free)));
  }

  /** A worker takes session s from the worker queue and the first packet from s. */
  lemma Take(h: State, t: nat, s: nat, v: View)
    requires Reaches(h, t, s, v) && v.pc == Checking && v.q == [s] && !v.x.die && v.x.queue != []
    ensures Reaches(h, t, s, View(Batched(s, 1), v.x.(owner := Held(t), queue := v.x.queue[1..]), v.b + [Packet(s, v.x.queue[0], false)], []))
  {
    hide Reaches, Produces, Closes, Finishes;
    var x := v.x.(owner := Held(t));
    assert v.q[1..] == [];
    Go(h, t, s, v, View(Got(s), x, v.b, []));
    Go(h, t, s, View(Got(s), x, v.b, []), View(Popping(s, 0), x, v.b, []));
    var b := v.b + [Packet(s, x.queue[0], false)];
    assert Batches(v.b, s, x.queue[0], [], b);
    Go(h, t, s, View(Popping(s, 0), x, v.b, []), View(Batched(s, 1), x.(queue := x.queue[1..]), b, []));
  }

  /** Close, up to closing the session's channel. */
  lemma Shuts(h: State, t: nat, s: nat, v: View)
    requires Reaches(h, t, s, v) && v.pc == Idle && v.b == [] && v.x.mu == Free && !v.x.once
    ensures Reaches(h, t, s, v.(pc := Shut(s), x := v.x.(once := true, die := true)))
  {
    hide Reaches, Closes, Works, Finishes;
    var w := v.(pc := Holding(s, true), x := v.x.(mu := By(t), once := true));
    Go(h, t, s, v, w);
    Go(h, t, s, w, v.(pc := Shut(s), x := v.x.(once := true, die := true)));
  }

  /** The rest of Close, when one packet waits. */
  lemma Drains(h: State, t: nat, s: nat, v: View)
    requires Reaches(h, t, s, v) && v.pc == Shut(s) && v.b == [] && v.x.sendMu == Free && |v.x.queue| == 1
    ensures Reaches(h, t, s, v.(pc := Done(s), x := v.x.(gate := true, queue := [])))
  {
    hide Reaches, Produces, Works, Finishes;
    var w := v.(pc := Draining(s), x := v.x.(gate := true));
    Go(h, t, s, v, w);
    var w' := w.(x := w.x.(queue := []));
    assert w.x.queue[1..] == [];
    Go(h, t, s, w, w');
    Go(h, t, s, w', w'.(pc := Done(s)));
  }

  /** A worker finds the queue of a closed session empty, and lets go of it. */
  lemma LetsGo(h: State, t: nat, s: nat, v: View)
    requires Reaches(h, t, s, v) && v.pc == Popping(s, 1) && v.x.die && v.x.queue == []
    ensures Reaches(h, t, s, v.(pc := Checking, x := v.x.(running := false, owner := Nobody)))
  {
    hide Reaches, Produces, Closes;
    Go(h, t, s, v, v.(pc := Releasing(s)));
    var w := v.(pc := Rechecking(s), x := v.x.(running := false, owner := Nobody));
    Go(h, t, s, v.(pc := Releasing(s)), w);
    Go(h, t, s, w, w.(pc := WorkerDraining(s)));
    Go(h, t, s, w.(pc := WorkerDraining(s)), w.(pc := Checking));
  }

  /** A worker with the last packet of an open session in its batch enters tx. */
  lemma Sends(h: State, t: nat, s: nat, v: View)
    requires Reaches(h, t, s, v) && v.pc == Batched(s, 1) && v.x.queue == [] && !v.x.die && !v.x.gate && v.x.sendMu == Free
    ensures Reaches(h, t, s, v.(pc := InTx(s, 1, false), x := v.x.(sendMu := By(t))))
  {
    hide Reaches, Produces, Closes, Finishes;
    Go(h, t, s, v, v.(pc := Flushing(s, 1, false)));
    Go(h, t, s, v.(pc := Flushing(s, 1, false)), v.(pc := Sending(s, 1, false)));
    Go(h, t, s, v.(pc := Sending(s, 1, false)), v.(pc := InTx(s, 1, false), x := v.x.(sendMu := By(t))));
  }

  /** A signal that finds no worker asleep. */
  lemma Notify(h: State, t: nat, s: nat)
    requires Reachable(h) && t < |h.pcs| && h.pcs[t] == Signalling(s, false) && forall u :: 0 <= u < |h.pcs| ==> !h.pcs[u].Waiting?
    ensures Reachable(h.(pcs := h.pcs[t := Holding(s, false)]))
  {
    hide Reachable;
    var h' := h.(pcs := h.pcs[t := Holding(s, false)]);
    assert Signals(h, h', t);
    Extend(h, h');
  }

  // ------------------------------------------------------------------ milestones

  /** Two sessions, a worker with record 0 and batch b, two callers, and a worker that
      has not started. */
  ghost function OneWorker(x: Sess, y: Sess, q: seq<nat>, worker: Pc, caller: Pc, other: Pc, b: seq<Packet>): State {
    State([x, y], q, [worker, caller, other, Unstarted], [0, 0, 0, 0], [b], multiset{})
  }

  lemma CallerFrom(x: Sess, y: Sess, q: seq<nat>, w: Pc, c: Pc, o: Pc, b: seq<Packet>)
    requires Reachable(OneWorker(x, y, q, w, c, o, b)) && !Started(c)
    ensures Reaches(OneWorker(x, y, q, w, c, o, b), 1, 0, View(c, x, [], q))
  {
    hide Reachable, Reaches, IsWorker;
    Begin(OneWorker(x, y, q, w, c, o, b), 1, 0);
  }

  lemma CallerTo(x: Sess, y: Sess, q: seq<nat>, w: Pc, c: Pc, o: Pc, b: seq<Packet>, v: View)
    requires Reaches(OneWorker(x, y, q, w, c, o, b), 1, 0, v) && !Started(v.pc)
    ensures Reachable(OneWorker(v.x, y, v.q, w, v.pc, o, b))
  {
    hide Reachable, IsWorker;
    var h, h' := OneWorker(x, y, q, w, c, o, b), OneWorker(v.x, y, v.q, w, v.pc, o, b);
    assert h.sess[0 := v.x] == h'.sess && h.pcs[1 := v.pc] == h'.pcs;
  }

  lemma OtherFrom(x: Sess, y: Sess, q: seq<nat>, w: Pc, c: Pc, o: Pc, b: seq<Packet>)
    requires Reachable(OneWorker(x, y, q, w, c, o, b)) && !Started(o)
    ensures Reaches(OneWorker(x, y, q, w, c, o, b), 2, 1, View(o, y, [], q))
  {
    hide Reachable, Reaches, IsWorker;
    Begin(OneWorker(x, y, q, w, c, o, b), 2, 1);
  }

  lemma OtherTo(x: Sess, y: Sess, q: seq<nat>, w: Pc, c: Pc, o: Pc, b: seq<Packet>, v: View)
    requires Reaches(OneWorker(x, y, q, w, c, o, b), 2, 1, v) && !Started(v.pc)
    ensures Reachable(OneWorker(x, v.x, v.q, w, c, v.pc, b))
  {
    hide Reachable, IsWorker;
    var h, h' := OneWorker(x, y, q, w, c, o, b), OneWorker(x, v.x, v.q, w, c, v.pc, b);
    assert h.sess[1 := v.x] == h'.sess && h.pcs[2 := v.pc] == h'.pcs;
  }

  lemma WorkerFrom(x: Sess, y: Sess, q: seq<nat>, w: Pc, c: Pc, o: Pc, b: seq<Packet>)
    requires Reachable(OneWorker(x, y, q, w, c, o, b)) && Started(w)
    ensures Reaches(OneWorker(x, y, q, w, c, o, b), 0, 0, View(w, x, b, q))
    ensures Reaches(OneWorker(x, y, q, w, c, o, b), 0, 1, View(w, y, b, q))
  {
    hide Reachable, Reaches, IsWorker;
    Begin(OneWorker(x, y, q, w, c, o, b), 0, 0);
    Begin(OneWorker(x, y, q, w, c, o, b), 0, 1);
  }

  lemma WorkerTo(x: Sess, y: Sess, q: seq<nat>, w: Pc, c: Pc, o: Pc, b: seq<Packet>, s: nat, v: View)
    requires s < 2 && Reaches(OneWorker(x, y, q, w, c, o, b), 0, s, v) && Started(v.pc)
    ensures Reachable(OneWorker(if s == 0 then v.x else x, if s == 1 then v.x else y, v.q, v.pc, c, o, v.b))
  {
    hide Reachable, IsWorker;
    var h := OneWorker(x, y, q, w, c, o, b);
    var h' := OneWorker(if s == 0 then v.x else x, if s == 1 then v.x else y, v.q, v.pc, c, o, v.b);
    assert h.sess[s := v.x] == h'.sess && h.pcs[0 := v.pc] == h'.pcs && h.recs[0 := v.b] == h'.recs;
  }

  lemma FirstStart()
    ensures Reachable(OneWorker(NEW, NEW, [], Checking, Idle, Idle, []))
  {
    hide Reachable;
    var h := State([NEW, NEW], [], [Unstarted, Idle, Idle, Unstarted], [0, 0, 0, 0], [], multiset{});
    StartIsReachable(h);
    var h' := OneWorker(NEW, NEW, [], Checking, Idle, Idle, []);
    assert h.pcs[0 := Checking] == h'.pcs && h.rec[0 := |h.recs|] == h'.rec && h.recs + [[]] == h'.recs;
    assert StartsNew(h, h', 0);
    Extend(h, h');
  }

  lemma CallerNotifies(x: Sess, y: Sess, q: seq<nat>, b: seq<Packet>)
    requires Reachable(OneWorker(x, y, q, Checking, Signalling(0, false), Idle, b))
    ensures Reachable(OneWorker(x, y, q, Checking, Holding(0, false), Idle, b))
  {
    hide Reachable;
    var h := OneWorker(x, y, q, Checking, Signalling(0, false), Idle, b);
    Notify(h, 1, 0);
    assert h.pcs[1 := Holding(0, false)] == [Checking, Holding(0, false), Idle, Unstarted];
  }

  /** One packet waits, and the caller that put it there still holds the mutex. */
  lemma Offered()
    ensures Reachable(OneWorker(Sess([7], true, Queued, false, false, false, By(1), Free, [7], []), NEW, [0], Checking, Holding(0, false), Idle, []))
  {
    hide Reachable, Reaches, OneWorker;
    FirstStart();
    CallerFrom(NEW, NEW, [], Checking, Idle, Idle, []);
    Offer(OneWorker(NEW, NEW, [], Checking, Idle, Idle, []), 1, 0, NEW, 7);
    var x := Sess([7], true, Queued, false, false, false, By(1), Free, [7], []);
    assert NEW.pushed + [7] == [7];
    CallerTo(NEW, NEW, [], Checking, Idle, Idle, [], View(Signalling(0, false), x, [], [0]));
    CallerNotifies(x, NEW, [0], []);
  }

  // ----------------------------------------- a batch that outlives its session's Close

  /** The worker has the first of two packets in its batch. */
  lemma FirstTaken()
    ensures Reachable(OneWorker(Sess([8], true, Held(0), false, false, false, Free, Free, [7, 8], []), NEW, [], Popping(0, 1), Idle, Idle, [Packet(0, 7, false)]))
  {
    hide Reachable, Reaches, OneWorker, Produces, Closes, Finishes;
    Offered();
    var x := Sess([7], true, Queued, false, false, false, By(1), Free, [7], []);
    CallerFrom(x, NEW, [0], Checking, Holding(0, false), Idle, []);
    var h := OneWorker(x, NEW, [0], Checking, Holding(0, false), Idle, []);
    OfferNext(h, 1, 0, View(Holding(0, false), x, [], [0]), 8);
    assert [7] + [8] == [7, 8];
    var x2 := x.(queue := [7, 8], pushed := [7, 8]);
    Leave(h, 1, 0, View(Holding(0, false), x2, [], [0]));
    var x3 := Sess([7, 8], true, Queued, false, false, false, Free, Free, [7, 8], []);
    CallerTo(x, NEW, [0], Checking, Holding(0, false), Idle, [], View(Idle, x3, [], [0]));
    TakesFirst(x3);
  }

  lemma TakesFirst(x: Sess)
    requires x == Sess([7, 8], true, Queued, false, false, false, Free, Free, [7, 8], [])
    requires Reachable(OneWorker(x, NEW, [0], Checking, Idle, Idle, []))
    ensures Reachable(OneWorker(Sess([8], true, Held(0), false, false, false, Free, Free, [7, 8], []), NEW, [], Popping(0, 1), Idle, Idle, [Packet(0, 7, false)]))
  {
    hide Reachable, Reaches, OneWorker, Produces, Closes, Finishes;
    WorkerFrom(x, NEW, [0], Checking, Idle, Idle, []);
    var h := OneWorker(x, NEW, [0], Checking, Idle, Idle, []);
    Take(h, 0, 0, View(Checking, x, [], [0]));
    var y := Sess([8], true, Held(0), false, false, false, Free, Free, [7, 8], []);
    assert x.queue[1..] == [8] && [] + [Packet(0, 7, false)] == [Packet(0, 7, false)];
    Go(h, 0, 0, View(Batched(0, 1), y, [Packet(0, 7, false)], []), View(Popping(0, 1), y, [Packet(0, 7, false)], []));
    WorkerTo(x, NEW, [0], Checking, Idle, Idle, [], 0, View(Popping(0, 1), y, [Packet(0, 7, false)], []));
  }

  const CLOSED: Sess := Sess([], false, Nobody, true, true, true, Free, Free, [7, 8], [])

  /** Close has come in between. */
  lemma ClosedBetween()
    ensures Reachable(OneWorker(Sess([], true, Held(0), true, true, true, Free, Free, [7, 8], []), NEW, [], Popping(0, 1), Done(0), Idle, [Packet(0, 7, false)]))
  {
    hide Reachable, Reaches, OneWorker;
    FirstTaken();
    var x, b := Sess([8], true, Held(0), false, false, false, Free, Free, [7, 8], []), [Packet(0, 7, false)];
    CallerFrom(x, NEW, [], Popping(0, 1), Idle, Idle, b);
    var h := OneWorker(x, NEW, [], Popping(0, 1), Idle, Idle, b);
    Shuts(h, 1, 0, View(Idle, x, [], []));
    Drains(h, 1, 0, View(Shut(0), Sess([8], true, Held(0), true, false, true, Free, Free, [7, 8], []), [], []));
    CallerTo(x, NEW, [], Popping(0, 1), Idle, Idle, b, View(Done(0), Sess([], true, Held(0), true, true, true, Free, Free, [7, 8], []), [], []));
  }

  /** The worker has left the closed session with its batch. */
  lemma LeftOver()
    ensures Reachable(OneWorker(CLOSED, NEW, [], Checking, Done(0), Idle, [Packet(0, 7, false)]))
  {
    hide Reachable, Reaches, OneWorker;
    ClosedBetween();
    var x, b := Sess([], true, Held(0), true, true, true, Free, Free, [7, 8], []), [Packet(0, 7, false)];
    WorkerFrom(x, NEW, [], Popping(0, 1), Done(0), Idle, b);
    LetsGo(OneWorker(x, NEW, [], Popping(0, 1), Done(0), Idle, b), 0, 0, View(Popping(0, 1), x, b, []));
    WorkerTo(x, NEW, [], Popping(0, 1), Done(0), Idle, b, 0, View(Checking, CLOSED, b, []));
  }

  /** The worker is in tx for the other session, with the closed session's packet. */
  lemma SentTogether()
    ensures Reachable(OneWorker(CLOSED, Sess([], true, Held(0), false, false, false, By(2), By(0), [9], []), [], InTx(1, 1, false), Done(0),
                                Signalling(1, false), [Packet(0, 7, false), Packet(1, 9, false)]))
  {
    hide Reachable, Reaches, OneWorker;
    LeftOver();
    var b := [Packet(0, 7, false)];
    OtherFrom(CLOSED, NEW, [], Checking, Done(0), Idle, b);
    Offer(OneWorker(CLOSED, NEW, [], Checking, Done(0), Idle, b), 2, 1, NEW, 9);
    var y := Sess([9], true, Queued, false, false, false, By(2), Free, [9], []);
    assert NEW.pushed + [9] == [9];
    OtherTo(CLOSED, NEW, [], Checking, Done(0), Idle, b, View(Signalling(1, false), y, [], [1]));
    TakesOther(y, b);
  }

  lemma TakesOther(y: Sess, b: seq<Packet>)
    requires y == Sess([9], true, Queued, false, false, false, By(2), Free, [9], []) && b == [Packet(0, 7, false)]
    requires Reachable(OneWorker(CLOSED, y, [1], Checking, Done(0), Signalling(1, false), b))
    ensures Reachable(OneWorker(CLOSED, Sess([], true, Held(0), false, false, false, By(2), By(0), [9], []), [], InTx(1, 1, false), Done(0),
                                Signalling(1, false), [Packet(0, 7, false), Packet(1, 9, false)]))
  {
    hide Reachable, Reaches, OneWorker;
    WorkerFrom(CLOSED, y, [1], Checking, Done(0), Signalling(1, false), b);
    var h := OneWorker(CLOSED, y, [1], Checking, Done(0), Signalling(1, false), b);
    Take(h, 0, 1, View(Checking, y, b, [1]));
    var b2 := [Packet(0, 7, false), Packet(1, 9, false)];
    assert y.queue[1..] == [] && b + [Packet(1, 9, false)] == b2;
    Sends(h, 0, 1, View(Batched(1, 1), Sess([], true, Held(0), false, false, false, By(2), Free, [9], []), b2, []));
    WorkerTo(CLOSED, y, [1], Checking, Done(0), Signalling(1, false), b, 1,
             View(InTx(1, 1, false), Sess([], true, Held(0), false, false, false, By(2), By(0), [9], []), b2, []));
  }

  lemma OneRecord(h: State)
    requires |h.pcs| == 4 && forall t :: 0 < t < 4 ==> !Started(h.pcs[t])
    ensures forall r :: !Shared(h, r)
  {
    hide IsWorker;
  }

  /** It is not true that a worker sends on a session only what came from that
      session: when Close drains the queue between a worker's look at it and its next
      pop, the packets in the worker's batch stay there, and go out with the next
      session's. */
  lemma BatchOutlivesClose()
    ensures exists h: State, p ::
              && Reachable(h) && |h.pcs| == 4 && |h.rec| == 4 && |h.sess| == 2 && (forall r :: !Shared(h, r))
              && h.pcs[0].InTx? && h.pcs[0].s == 1 && p in Batch(h, 0) && p.s == 0
              && h.sess[0].gate && h.pcs[1] == Done(0)
  {
    hide Reachable;
    SentTogether();
    var h := OneWorker(CLOSED, Sess([], true, Held(0), false, false, false, By(2), By(0), [9], []), [], InTx(1, 1, false), Done(0),
                       Signalling(1, false), [Packet(0, 7, false), Packet(1, 9, false)]);
    assert forall r :: !Shared(h, r) by { OneRecord(h); }
    assert Batch(h, 0) == [Packet(0, 7, false), Packet(1, 9, false)] && Packet(0, 7, false) in Batch(h, 0);
  }

  // ------------------------------------------------------------ a shared record

  /** The only packet of the session is in the worker's batch. */
  lemma OnlyTaken()
    ensures Reachable(OneWorker(Sess([], true, Held(0), false, false, false, Free, Free, [7], []), NEW, [], Flushing(0, 1, false), Idle, Idle,
                                [Packet(0, 7, false)]))
  {
    hide Reachable, Reaches, OneWorker, Produces, Closes, Finishes;
    Offered();
    var x := Sess([7], true, Queued, false, false, false, By(1), Free, [7], []);
    CallerFrom(x, NEW, [0], Checking, Holding(0, false), Idle, []);
    Leave(OneWorker(x, NEW, [0], Checking, Holding(0, false), Idle, []), 1, 0, View(Holding(0, false), x, [], [0]));
    var x2 := Sess([7], true, Queued, false, false, false, Free, Free, [7], []);
    CallerTo(x, NEW, [0], Checking, Holding(0, false), Idle, [], View(Idle, x2, [], [0]));
    TakesOnly(x2);
  }

  lemma TakesOnly(x: Sess)
    requires x == Sess([7], true, Queued, false, false, false, Free, Free, [7], [])
    requires Reachable(OneWorker(x, NEW, [0], Checking, Idle, Idle, []))
    ensures Reachable(OneWorker(Sess([], true, Held(0), false, false, false, Free, Free, [7], []), NEW, [], Flushing(0, 1, false), Idle, Idle,
                                [Packet(0, 7, false)]))
  {
    hide Reachable, Reaches, OneWorker, Produces, Closes, Finishes;
    WorkerFrom(x, NEW, [0], Checking, Idle, Idle, []);
    var h := OneWorker(x, NEW, [0], Checking, Idle, Idle, []);
    Take(h, 0, 0, View(Checking, x, [], [0]));
    var y, b := Sess([], true, Held(0), false, false, false, Free, Free, [7], []), [Packet(0, 7, false)];
    assert x.queue[1..] == [] && [] + [Packet(0, 7, false)] == b;
    Go(h, 0, 0, View(Batched(0, 1), y, b, []), View(Flushing(0, 1, false), y, b, []));
    WorkerTo(x, NEW, [0], Checking, Idle, Idle, [], 0, View(Flushing(0, 1, false), y, b, []));
  }

  const SHUT: Sess := Sess([], true, Held(0), true, false, true, Free, Free, [7], [])

  /** The session is closed with its packet in the worker's batch. */
  lemma ClosedWhileTaken()
    ensures Reachable(OneWorker(SHUT, NEW, [], Flushing(0, 1, false), Shut(0), Idle, [Packet(0, 7, false)]))
  {
    hide Reachable, Reaches, OneWorker;
    OnlyTaken();
    var x, b := Sess([], true, Held(0), false, false, false, Free, Free, [7], []), [Packet(0, 7, false)];
    CallerFrom(x, NEW, [], Flushing(0, 1, false), Idle, Idle, b);
    Shuts(OneWorker(x, NEW, [], Flushing(0, 1, false), Idle, Idle, b), 1, 0, View(Idle, x, [], []));
    CallerTo(x, NEW, [], Flushing(0, 1, false), Idle, Idle, b, View(Shut(0), SHUT, [], []));
  }

  /** Both workers have started, on record 0. */
  ghost function TwoWorkers(y: Sess, q: seq<nat>, o: Pc, late: Pc, b: seq<Packet>): State {
    State([SHUT, y], q, [Requeue(0), Shut(0), o, late], [0, 0, 0, 0], [b], multiset{})
  }

  /** The worker drops the batch, puts its record back, and the other worker takes it. */
  lemma StartedLate()
    ensures Reachable(TwoWorkers(NEW, [], Idle, Checking, []))
  {
    hide Reachable;
    ClosedWhileTaken();
    var h := OneWorker(SHUT, NEW, [], Flushing(0, 1, false), Shut(0), Idle, [Packet(0, 7, false)]);
    var h1 := State([SHUT, NEW], [], [Requeue(0), Shut(0), Idle, Unstarted], [0, 0, 0, 0], [[]], multiset{0});
    PutBack(h, h1);
    var h2 := TwoWorkers(NEW, [], Idle, Checking, []);
    assert h1.pcs[3 := Checking] == h2.pcs && h1.rec[3 := 0] == h2.rec && multiset{0} - multiset{0} == multiset{};
    assert StartsPooled(h1, h2, 3, 0);
    Extend(h1, h2);
  }

  lemma PutBack(h: State, h': State)
    requires h == OneWorker(SHUT, NEW, [], Flushing(0, 1, false), Shut(0), Idle, [Packet(0, 7, false)]) && Reachable(h)
    requires h' == State([SHUT, NEW], [], [Requeue(0), Shut(0), Idle, Unstarted], [0, 0, 0, 0], [[]], multiset{0})
    ensures Reachable(h')
  {
    hide Reachable, Produces, Closes, Finishes;
    assert h.sess[0 := SHUT] == h'.sess && h.pcs[0 := Requeue(0)] == h'.pcs && h.recs[0 := []] == h'.recs;
    assert multiset{} + multiset{0} == multiset{0};
    assert Local(h, h', 0, 0);
    Extend(h, h');
  }

  const WAITING: Sess := Sess([9], true, Queued, false, false, false, By(2), Free, [9], [])

  lemma OfferedLate()
    ensures Reachable(TwoWorkers(WAITING, [1], Signalling(1, false), Checking, []))
  {
    hide Reachable, IsWorker;
    StartedLate();
    var h, h' := TwoWorkers(NEW, [], Idle, Checking, []), TwoWorkers(WAITING, [1], Signalling(1, false), Checking, []);
    var v := View(Signalling(1, false), WAITING, [], [1]);
    assert NEW.pushed + [9] == [9];
    assert Reaches(h, 2, 1, v) by {
      hide Reaches;
      Begin(h, 2, 1);
      Offer(h, 2, 1, NEW, 9);
    }
    assert h.sess[1 := WAITING] == h'.sess && h.pcs[2 := v.pc] == h'.pcs;
    Arrive(h, 2, 1, v, h');
  }

  const TAKEN: Sess := Sess([], true, Held(3), false, false, false, By(2), Free, [9], [])

  lemma TakenLate()
    ensures Reachable(TwoWorkers(TAKEN, [], Signalling(1, false), Batched(1, 1), [Packet(1, 9, false)]))
  {
    hide Reachable, IsWorker;
    OfferedLate();
    var h := TwoWorkers(WAITING, [1], Signalling(1, false), Checking, []);
    var h' := TwoWorkers(TAKEN, [], Signalling(1, false), Batched(1, 1), [Packet(1, 9, false)]);
    var v := View(Batched(1, 1), TAKEN, [Packet(1, 9, false)], []);
    assert Reaches(h, 3, 1, v) by {
      hide Reaches;
      Begin(h, 3, 1);
      Take(h, 3, 1, View(Checking, WAITING, [], [1]));
      assert WAITING.queue[1..] == [] && [] + [Packet(1, 9, false)] == v.b;
    }
    assert h.sess[1 := TAKEN] == h'.sess && h.pcs[3 := v.pc] == h'.pcs && h.recs[0 := v.b] == h'.recs;
    Arrive(h, 3, 1, v, h');
  }

  /** It is not true that a worker's batch holds, besides packets of the session it
      serves, only packets of closed sessions: when a worker starts on a record that
      another one put back, the packets it takes from an open session are in the batch
      of both. */
  lemma RecordIsShared()
    ensures exists h: State, p ::
              && Reachable(h) && |h.pcs| == 4 && |h.rec| == 4 && |h.sess| == 2 && Shared(h, 0)
              && h.pcs[0] == Requeue(0) && p in Batch(h, 0) && p.s == 1 && !h.sess[1].die
  {
    hide Reachable;
    TakenLate();
    var h := TwoWorkers(TAKEN, [], Signalling(1, false), Batched(1, 1), [Packet(1, 9, false)]);
    assert HasRecord(h, 0, 0) && HasRecord(h, 3, 0);
    assert Packet(1, 9, false) in Batch(h, 0);
  }
}
