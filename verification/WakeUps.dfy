/** One wake-up for every session in the worker queue: while a worker sleeps, there are
    never more entries than workers about to look plus signals about to be sent. */
module WakeUps {
  import opened HandOff

  /** A worker about to look at the queue, or a signal about to be sent. */
  function Coming(pc: Pc): nat { if pc.Checking? || pc.Signalling? || pc.WorkerSignalling? then 1 else 0 }

  function Total(pcs: seq<Pc>): nat {
    if pcs == [] then 0 else Total(pcs[..|pcs| - 1]) + Coming(pcs[|pcs| - 1])
  }

  lemma {:induction false} TotalUpdate(pcs: seq<Pc>, t: nat, pc: Pc)
    requires t < |pcs|
    ensures Total(pcs[t := pc]) == Total(pcs) - Coming(pcs[t]) + Coming(pc)
  {
    var init, last := pcs[..|pcs| - 1], |pcs| - 1;
    if t == last {
      assert pcs[t := pc][..last] == init;
    } else {
      TotalUpdate(init, t, pc);
      assert pcs[t := pc][..last] == init[t := pc];
    }
  }

  ghost predicate Sleeps(h: State, t: nat) { t < |h.pcs| && h.pcs[t].Waiting? }

  ghost predicate Served(h: State) { (exists t :: Sleeps(h, t)) ==> |h.q| <= Total(h.pcs) }

  lemma OneComes(t: nat, s: nat, v: View, w: View)
    requires Moves(t, s, v, w)
    ensures !v.pc.Waiting?
    ensures if w.pc.Waiting? then w.q == [] else |w.q| - |v.q| <= Coming(w.pc) - Coming(v.pc)
  {
  }

  lemma LocalServed(h: State, h': State, t: nat, s: nat)
    requires Local(h, h', t, s) && Served(h)
    ensures Served(h')
  {
    hide Local, Moves, Batch;
    LocalMoves(h, h', t, s);
    var v, w := ViewOf(h, t, s), ViewOf(h', t, s);
    OneComes(t, s, v, w);
    assert h'.pcs == h.pcs[t := w.pc];
    TotalUpdate(h.pcs, t, w.pc);
    if u: nat :| Sleeps(h', u) {
      if u != t { assert Sleeps(h, u); }
    }
  }

  lemma SignalServed(h: State, h': State, t: nat)
    requires Signals(h, h', t) && Served(h)
    ensures Served(h')
  {
    var pc := AfterSignal(h.pcs[t]);
    TotalUpdate(h.pcs, t, pc);
    var pcs := h.pcs[t := pc];
    if u :| 0 <= u < |h.pcs| && h.pcs[u].Waiting? && h' == h.(pcs := pcs[u := Checking]) {
      assert Sleeps(h, u);
      TotalUpdate(pcs, u, Checking);
    } else {
      forall u: nat ensures !Sleeps(h', u) { }
    }
  }

  lemma StartServed(h: State, h': State)
    requires Starts(h, h') && Served(h)
    ensures Served(h')
  {
    hide Starts;
    var t := StartBegins(h, h');
    TotalUpdate(h.pcs, t, Checking);
    if u: nat :| Sleeps(h', u) { assert Sleeps(h, u); }
  }

  lemma StepServed(h: State, h': State)
    requires Step(h, h') && Served(h)
    ensures Served(h')
  {
    hide Local, Signals, Starts, Served;
    if t: nat, s: nat :| Local(h, h', t, s) {
      LocalServed(h, h', t, s);
    } else if t: nat :| Signals(h, h', t) {
      SignalServed(h, h', t);
    } else {
      StartServed(h, h');
    }
  }

  /** In every run, whatever the workers share: while any worker sleeps, every session in
      the worker queue has a worker about to look or a signal about to be sent. */
  lemma {:induction false} EveryEntryIsServed(hs: seq<State>, n: nat)
    requires IsRun(hs) && n < |hs|
    ensures (exists t :: Sleeps(hs[n], t)) ==> |hs[n].q| <= Total(hs[n].pcs)
  {
    hide Start, Step;
    if n == 0 {
      NobodySleeps(hs[0]);
    } else {
      EveryEntryIsServed(hs, n - 1);
      StepServed(hs[n - 1], hs[n]);
    }
  }

  lemma NobodySleeps(h: State)
    requires Start(h)
    ensures forall t :: !Sleeps(h, t)
  {
  }
}
