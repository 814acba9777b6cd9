/** How packets get from the protocol engine to the post-processing workers, and
    how Close stops them: many producers, closers and workers taking atomic steps
    in any order on any number of sessions. */
module HandOff {
  const BACKLOG: int := 2048
  const BATCH: int := 64
  const BUDGET: int := 256

  datatype Lock = Free | By(t: nat)

  /** Who holds the session's claim: nobody, an entry of the worker queue, or a
      thread.  It is history; the code keeps only the flag `running`. */
  datatype Owner = Nobody | Queued | Held(t: nat)

  /** A session: packets waiting, the claim flag, the closed channel, Close's gate
      before tx, whether Close was called, and its two mutexes; and, as history, every
      packet ever put into the queue and every packet ever handed to tx. */
  datatype Sess = Sess(queue: seq<nat>, running: bool, owner: Owner, die: bool, gate: bool, once: bool, mu: Lock, sendMu: Lock,
                       pushed: seq<nat>, tx: seq<Packet>)

  /** A packet in a worker's batch, with the session it came from; `extra` marks the
      copies and the parity that go with it. */
  datatype Packet = Packet(s: nat, r: nat, extra: bool)

  /** Where a thread is.  The first group are the callers of the session: they hold
      its mutex, and `closing` says that the caller is Close. */
  datatype Pc =
    | Idle
    | Holding(s: nat, closing: bool)
    | Cleared(s: nat, closing: bool)
    | Pushed(s: nat, closing: bool)
    | Claimed(s: nat, closing: bool)
    | Signalling(s: nat, closing: bool)
    | Shut(s: nat)
    | Draining(s: nat)
    | Done(s: nat)
    // workers
    | Unstarted
    | Waiting
    | Checking
    | Got(s: nat)
    | Popping(s: nat, n: nat)
    | Batched(s: nat, n: nat)
    | Flushing(s: nat, n: nat, last: bool)
    | Sending(s: nat, n: nat, last: bool)
    | InTx(s: nat, n: nat, last: bool)
    | Deciding(s: nat)
    | Requeue(s: nat)
    | WorkerSignalling
    | Releasing(s: nat)
    | Rechecking(s: nat)
    | WorkerDraining(s: nat)
    | Looking(s: nat)
    | Reclaiming(s: nat)

  /** Workers keep their batches in records: `rec` is the record of each worker that
      has started, and `pool` holds the records that were put back, which a worker that
      starts later may take, although their workers go on using them. */
  datatype State = State(sess: seq<Sess>, q: seq<nat>, pcs: seq<Pc>, rec: seq<nat>, recs: seq<seq<Packet>>, pool: multiset<nat>)

  // ------------------------------------------------------------------ the steps

  /** What one step of thread t at session s reads and writes. */
  datatype View = View(pc: Pc, x: Sess, b: seq<Packet>, q: seq<nat>)

  function Resume(s: nat, n: nat, last: bool): Pc { if last then Deciding(s) else Popping(s, n) }

  /** kcp output callback and SendOOB, under the session's mutex. */
  ghost predicate Produces(t: nat, s: nat, v: View, w: View) {
    match v.pc
    case Idle =>
      && v.x.mu == Free
      && (|| w == v.(pc := Holding(s, false), x := v.x.(mu := By(t)))
          || (!v.x.once && w == v.(pc := Holding(s, true), x := v.x.(mu := By(t), once := true))))
    case Holding(_, c) =>
      || w == v.(pc := if v.x.die then Holding(s, c) else Cleared(s, c))
      || (!c && w == v.(pc := Idle, x := v.x.(mu := Free)))
      || (c && w == v.(pc := Shut(s), x := v.x.(mu := Free, die := true)))
    case Cleared(_, c) =>
      if |v.x.queue| >= BACKLOG then w == v.(pc := Holding(s, c))
      else exists r :: w == v.(pc := Pushed(s, c), x := v.x.(queue := v.x.queue + [r], pushed := v.x.pushed + [r]))
    case Pushed(_, c) =>
      if v.x.running then w == v.(pc := Holding(s, c))
      else w == v.(pc := Claimed(s, c), x := v.x.(running := true, owner := Held(t)))
    case Claimed(_, c) => w == v.(pc := Signalling(s, c), x := v.x.(owner := Queued), q := v.q + [s])
    case _ => false
  }

  /** The rest of Close: shuts the gate before tx, then drains the queue. */
  ghost predicate Closes(t: nat, s: nat, v: View, w: View) {
    match v.pc
    case Shut(_) => v.x.sendMu == Free && w == v.(pc := Draining(s), x := v.x.(gate := true))
    case Draining(_) =>
      if v.x.queue == [] then w == v.(pc := Done(s)) else w == v.(x := v.x.(queue := v.x.queue[1..]))
    case _ => false
  }

  /** A packet joins a worker's batch, with its copies and the parity it completes. */
  ghost predicate Batches(b: seq<Packet>, s: nat, r: nat, more: seq<Packet>, b': seq<Packet>) {
    b' == b + [Packet(s, r, false)] + more && forall i :: 0 <= i < |more| ==> more[i].s == s && more[i].extra
  }

  /** postProcessWorker and postProcess. */
  ghost predicate Works(t: nat, s: nat, v: View, w: View) {
    match v.pc
    case Checking =>
      if v.q == [] then w == v.(pc := Waiting)
      else v.q[0] == s && w == v.(pc := Got(s), q := v.q[1..], x := v.x.(owner := Held(t)))
    case Got(_) => w == v.(pc := if v.x.die then Releasing(s) else Popping(s, 0))
    case Popping(_, n) =>
      if n >= BUDGET then w == v.(pc := if v.b == [] then Deciding(s) else Flushing(s, n, true))
      else if v.x.queue == [] then w == v.(pc := Releasing(s))
      else exists more :: Batches(v.b, s, v.x.queue[0], more, w.b)
                          && w == v.(pc := Batched(s, n + 1), x := v.x.(queue := v.x.queue[1..]), b := w.b)
    case Batched(_, n) =>
      w == v.(pc := if v.x.queue == [] || |v.b| >= BATCH then Flushing(s, n, false) else Popping(s, n))
    case Flushing(_, n, last) =>
      if v.x.die then w == v.(pc := Requeue(s), b := []) else w == v.(pc := Sending(s, n, last))
    case Sending(_, n, last) =>
      && v.x.sendMu == Free
      && if v.x.gate then w == v.(pc := Resume(s, n, last), b := [])
         else w == v.(pc := InTx(s, n, last), x := v.x.(sendMu := By(t)))
    case InTx(_, n, last) => w == v.(pc := Resume(s, n, last), b := [], x := v.x.(sendMu := Free, tx := v.x.tx + v.b))
    case Deciding(_) => w == v.(pc := if v.x.queue != [] then Requeue(s) else Releasing(s))
    case Requeue(_) => w == v.(pc := WorkerSignalling, x := v.x.(owner := Queued), q := v.q + [s])
    case _ => false
  }

  /** finishPostProcess. */
  ghost predicate Finishes(t: nat, s: nat, v: View, w: View) {
    match v.pc
    case Releasing(_) => w == v.(pc := Rechecking(s), x := v.x.(running := false, owner := Nobody))
    case Rechecking(_) => w == v.(pc := if v.x.die then WorkerDraining(s) else Looking(s))
    case WorkerDraining(_) =>
      if v.x.queue == [] then w == v.(pc := Checking) else w == v.(x := v.x.(queue := v.x.queue[1..]))
    case Looking(_) => w == v.(pc := if v.x.queue != [] then Reclaiming(s) else Checking)
    case Reclaiming(_) =>
      if v.x.running then w == v.(pc := Checking)
      else w == v.(pc := Requeue(s), x := v.x.(running := true, owner := Held(t)))
    case _ => false
  }

  /** The session a thread is at, when it is at one. */
  ghost predicate At(pc: Pc, s: nat) {
    match pc
    case Idle | Unstarted | Waiting | Checking | WorkerSignalling => true
    case _ => pc.s == s
  }

  ghost predicate IsWorker(pc: Pc) {
    || pc.Unstarted? || pc.Waiting? || pc.Checking? || pc.Got? || pc.Popping? || pc.Batched? || pc.Flushing? || pc.Sending?
    || pc.InTx? || pc.Deciding? || pc.Requeue? || pc.WorkerSignalling? || pc.Releasing? || pc.Rechecking? || pc.WorkerDraining?
    || pc.Looking? || pc.Reclaiming?
  }

  /** A worker that has a record. */
  ghost predicate Started(pc: Pc) { IsWorker(pc) && !pc.Unstarted? }

  /** The batch of a thread; callers have none. */
  ghost function Batch(h: State, t: nat): seq<Packet>
    requires t < |h.pcs| && t < |h.rec|
  {
    if Started(h.pcs[t]) && h.rec[t] < |h.recs| then h.recs[h.rec[t]] else []
  }

  ghost function ViewOf(h: State, t: nat, s: nat): View
    requires t < |h.pcs| && t < |h.rec| && s < |h.sess|
  {
    View(h.pcs[t], h.sess[s], Batch(h, t), h.q)
  }

  /** The state with what thread t sees at session s replaced. */
  ghost function Replaced(h: State, t: nat, s: nat, w: View): State
    requires t < |h.pcs| && t < |h.rec| && s < |h.sess|
  {
    h.(sess := h.sess[s := w.x], q := w.q, pcs := h.pcs[t := w.pc],
       recs := if Started(h.pcs[t]) && h.rec[t] < |h.recs| then h.recs[h.rec[t] := w.b] else h.recs)
  }

  /** flushTx puts the record of a closed session's batch back into the pool. */
  ghost predicate PutsBack(v: View) { v.pc.Flushing? && v.x.die }

  ghost predicate Local(h: State, h': State, t: nat, s: nat) {
    && t < |h.pcs| == |h.rec| && s < |h.sess| && At(h.pcs[t], s)
    && t < |h'.pcs| && t < |h'.rec| && s < |h'.sess|
    && var v, w := ViewOf(h, t, s), ViewOf(h', t, s);
       && (Produces(t, s, v, w) || Closes(t, s, v, w) || Works(t, s, v, w) || Finishes(t, s, v, w))
       && h' == Replaced(h, t, s, w).(pool := if PutsBack(v) then h.pool + multiset{h.rec[t]} else h.pool)
  }

  /** A worker starts with a new record. */
  ghost predicate StartsNew(h: State, h': State, t: nat) {
    && t < |h.pcs| && t < |h.rec| && h.pcs[t].Unstarted?
    && h' == h.(pcs := h.pcs[t := Checking], rec := h.rec[t := |h.recs|], recs := h.recs + [[]])
  }

  /** A worker starts with a record from the pool. */
  ghost predicate StartsPooled(h: State, h': State, t: nat, r: nat) {
    && t < |h.pcs| && t < |h.rec| && h.pcs[t].Unstarted? && r in h.pool
    && h' == h.(pcs := h.pcs[t := Checking], rec := h.rec[t := r], pool := h.pool - multiset{r})
  }

  function AfterSignal(pc: Pc): Pc { if pc.Signalling? then Holding(pc.s, pc.closing) else Checking }

  /** cond.Signal: wakes one waiting worker, if there is any. */
  ghost predicate Signals(h: State, h': State, t: nat) {
    && t < |h.pcs| && (h.pcs[t].Signalling? || h.pcs[t].WorkerSignalling?)
    && var pcs := h.pcs[t := AfterSignal(h.pcs[t])];
       || (exists u :: 0 <= u < |h.pcs| && h.pcs[u].Waiting? && h' == h.(pcs := pcs[u := Checking]))
       || ((forall u :: 0 <= u < |h.pcs| ==> !h.pcs[u].Waiting?) && h' == h.(pcs := pcs))
  }

  ghost predicate Starts(h: State, h': State) {
    (exists t :: StartsNew(h, h', t)) || (exists t, r :: StartsPooled(h, h', t, r))
  }

  ghost predicate Step(h: State, h': State) {
    (exists t, s :: Local(h, h', t, s)) || (exists t :: Signals(h, h', t)) || Starts(h, h')
  }

  // -------------------------------------------------------------- the invariants

  ghost predicate HasMu(pc: Pc) { pc.Holding? || pc.Cleared? || pc.Pushed? || pc.Claimed? || pc.Signalling? }

  /** The thread holds the session's claim. */
  ghost predicate Owns(pc: Pc) {
    || pc.Claimed? || pc.Got? || pc.Popping? || pc.Batched? || pc.Flushing? || pc.Sending? || pc.InTx? || pc.Deciding?
    || pc.Requeue? || pc.Releasing?
  }

  /** What holds between thread t and session s. */
  ghost predicate PairOk(t: nat, pc: Pc, s: nat, x: Sess) {
    && (Owns(pc) && pc.s == s <==> x.owner == Held(t))
    && (HasMu(pc) && pc.s == s ==> x.mu == By(t))
    && (pc.InTx? && pc.s == s ==> x.sendMu == By(t) && !x.gate)
    && (pc.Cleared? && pc.s == s ==> !x.die)
    && ((pc.Shut? || pc.Draining? || pc.Done? || pc.WorkerDraining?) && pc.s == s ==> x.die)
    && ((pc.Draining? || pc.Done?) && pc.s == s ==> x.gate)
    && (pc.Done? && pc.s == s ==> x.queue == [])
  }

  /** What holds of a session and the worker queue. */
  ghost predicate SessOk(s: nat, x: Sess, q: seq<nat>) {
    (x.running <==> x.owner != Nobody) && (x.owner == Queued <==> s in q) && (x.gate ==> x.die)
  }

  ghost predicate Distinct(q: seq<nat>) { forall i, j :: 0 <= i < j < |q| ==> q[i] != q[j] }

  /** What thread u may rely on when another thread steps. */
  ghost predicate Rely(u: nat, x: Sess, x': Sess) {
    && (x.owner == Held(u) <==> x'.owner == Held(u))
    && (x.mu == By(u) ==> x'.mu == By(u) && x'.die == x.die)
    && (x.sendMu == By(u) ==> x'.sendMu == By(u) && x'.gate == x.gate)
    && (x.die ==> x'.die && |x'.queue| <= |x.queue|)
    && (x.gate ==> x'.gate)
    && (x.owner == Held(u) && !x.die ==> |x.queue| <= |x'.queue|)
  }

  ghost predicate Moves(t: nat, s: nat, v: View, w: View) {
    At(v.pc, s) && (Produces(t, s, v, w) || Closes(t, s, v, w) || Works(t, s, v, w) || Finishes(t, s, v, w))
  }

  lemma ProducesFairly(t: nat, s: nat, v: View, w: View, u: nat)
    requires At(v.pc, s) && Produces(t, s, v, w) && PairOk(t, v.pc, s, v.x) && SessOk(s, v.x, v.q) && u != t
    ensures Rely(u, v.x, w.x)
  {
  }

  lemma ClosesFairly(t: nat, s: nat, v: View, w: View, u: nat)
    requires At(v.pc, s) && Closes(t, s, v, w) && PairOk(t, v.pc, s, v.x) && SessOk(s, v.x, v.q) && u != t
    ensures Rely(u, v.x, w.x)
  {
  }

  lemma WorksFairly(t: nat, s: nat, v: View, w: View, u: nat)
    requires At(v.pc, s) && Works(t, s, v, w) && PairOk(t, v.pc, s, v.x) && SessOk(s, v.x, v.q) && u != t
    ensures Rely(u, v.x, w.x)
  {
  }

  lemma FinishesFairly(t: nat, s: nat, v: View, w: View, u: nat)
    requires At(v.pc, s) && Finishes(t, s, v, w) && PairOk(t, v.pc, s, v.x) && SessOk(s, v.x, v.q) && u != t
    ensures Rely(u, v.x, w.x)
  {
  }

  /** Every step leaves the other threads what they rely on. */
  lemma StepGuarantees(t: nat, s: nat, v: View, w: View, u: nat)
    requires Moves(t, s, v, w) && PairOk(t, v.pc, s, v.x) && SessOk(s, v.x, v.q) && u != t
    ensures Rely(u, v.x, w.x)
  {
    hide Produces, Closes, Works, Finishes, Rely, PairOk, SessOk, At;
    if Produces(t, s, v, w) { ProducesFairly(t, s, v, w, u); }
    else if Closes(t, s, v, w) { ClosesFairly(t, s, v, w, u); }
    else if Works(t, s, v, w) { WorksFairly(t, s, v, w, u); }
    else { FinishesFairly(t, s, v, w, u); }
  }

  lemma RelyKeeps(u: nat, pc: Pc, s: nat, x: Sess, x': Sess)
    requires PairOk(u, pc, s, x) && Rely(u, x, x')
    ensures PairOk(u, pc, s, x')
  {
  }

  lemma ProducesSoundly(t: nat, s: nat, v: View, w: View)
    requires At(v.pc, s) && Produces(t, s, v, w) && PairOk(t, v.pc, s, v.x) && SessOk(s, v.x, v.q)
    ensures PairOk(t, w.pc, s, w.x)
  {
    hide SessOk;
  }

  lemma ClosesSoundly(t: nat, s: nat, v: View, w: View)
    requires At(v.pc, s) && Closes(t, s, v, w) && PairOk(t, v.pc, s, v.x) && SessOk(s, v.x, v.q)
    ensures PairOk(t, w.pc, s, w.x)
  {
    hide SessOk;
  }

  lemma WorksSoundly(t: nat, s: nat, v: View, w: View)
    requires At(v.pc, s) && Works(t, s, v, w) && PairOk(t, v.pc, s, v.x) && SessOk(s, v.x, v.q)
    ensures PairOk(t, w.pc, s, w.x)
  {
    hide SessOk;
  }

  lemma FinishesSoundly(t: nat, s: nat, v: View, w: View)
    requires At(v.pc, s) && Finishes(t, s, v, w) && PairOk(t, v.pc, s, v.x) && SessOk(s, v.x, v.q)
    ensures PairOk(t, w.pc, s, w.x)
  {
    hide SessOk;
  }

  /** The thread's own facts, at the session it works on. */
  lemma OwnPair(t: nat, s: nat, v: View, w: View)
    requires Moves(t, s, v, w) && PairOk(t, v.pc, s, v.x) && SessOk(s, v.x, v.q)
    ensures PairOk(t, w.pc, s, w.x)
  {
    hide Produces, Closes, Works, Finishes, PairOk, SessOk, At;
    if Produces(t, s, v, w) { ProducesSoundly(t, s, v, w); }
    else if Closes(t, s, v, w) { ClosesSoundly(t, s, v, w); }
    else if Works(t, s, v, w) { WorksSoundly(t, s, v, w); }
    else { FinishesSoundly(t, s, v, w); }
  }

  lemma OtherPairWorking(t: nat, s: nat, v: View, w: View, s2: nat, x2: Sess)
    requires At(v.pc, s) && Works(t, s, v, w) && s2 != s && PairOk(t, v.pc, s2, x2)
    ensures PairOk(t, w.pc, s2, x2)
  {
  }

  lemma OtherPairOtherwise(t: nat, s: nat, v: View, w: View, s2: nat, x2: Sess)
    requires At(v.pc, s) && (Produces(t, s, v, w) || Closes(t, s, v, w) || Finishes(t, s, v, w)) && s2 != s && PairOk(t, v.pc, s2, x2)
    ensures PairOk(t, w.pc, s2, x2)
  {
  }

  /** At every other session the thread is in no way involved. */
  lemma OtherPair(t: nat, s: nat, v: View, w: View, s2: nat, x2: Sess)
    requires Moves(t, s, v, w) && s2 != s && PairOk(t, v.pc, s2, x2)
    ensures PairOk(t, w.pc, s2, x2)
  {
    hide Produces, Closes, Works, Finishes;
    if Works(t, s, v, w) { OtherPairWorking(t, s, v, w, s2, x2); } else { OtherPairOtherwise(t, s, v, w, s2, x2); }
  }

  /** What may happen to the claim: nothing, taken, given up, queued, taken from the queue. */
  ghost predicate ClaimMoved(t: nat, s: nat, v: View, w: View) {
    && (w.x.gate ==> v.x.gate || v.x.die) && (v.x.die ==> w.x.die)
    && (|| (w.q == v.q && w.x.owner == v.x.owner && w.x.running == v.x.running)
        || (w.q == v.q && !v.x.running && w.x.running && w.x.owner == Held(t))
        || (w.q == v.q && v.x.owner == Held(t) && !w.x.running && w.x.owner == Nobody)
        || (w.q == v.q + [s] && v.x.owner == Held(t) && w.x.owner == Queued && w.x.running == v.x.running)
        || (v.q != [] && v.q[0] == s && w.q == v.q[1..] && w.x.owner == Held(t) && w.x.running == v.x.running))
  }

  lemma ProducesClaim(t: nat, s: nat, v: View, w: View)
    requires At(v.pc, s) && Produces(t, s, v, w) && PairOk(t, v.pc, s, v.x)
    ensures ClaimMoved(t, s, v, w)
  {
  }

  lemma ClosesClaim(t: nat, s: nat, v: View, w: View)
    requires At(v.pc, s) && Closes(t, s, v, w) && PairOk(t, v.pc, s, v.x)
    ensures ClaimMoved(t, s, v, w)
  {
  }

  lemma WorksClaim(t: nat, s: nat, v: View, w: View)
    requires At(v.pc, s) && Works(t, s, v, w) && PairOk(t, v.pc, s, v.x)
    ensures ClaimMoved(t, s, v, w)
  {
  }

  lemma FinishesClaim(t: nat, s: nat, v: View, w: View)
    requires At(v.pc, s) && Finishes(t, s, v, w) && PairOk(t, v.pc, s, v.x)
    ensures ClaimMoved(t, s, v, w)
  {
  }

  /** The claim flag and the worker queue change together with the claim. */
  lemma ClaimMoves(t: nat, s: nat, v: View, w: View)
    requires Moves(t, s, v, w) && PairOk(t, v.pc, s, v.x)
    ensures ClaimMoved(t, s, v, w)
  {
    hide Produces, Closes, Works, Finishes, PairOk, At, ClaimMoved;
    if Produces(t, s, v, w) { ProducesClaim(t, s, v, w); }
    else if Closes(t, s, v, w) { ClosesClaim(t, s, v, w); }
    else if Works(t, s, v, w) { WorksClaim(t, s, v, w); }
    else { FinishesClaim(t, s, v, w); }
  }

  lemma OwnSess(t: nat, s: nat, v: View, w: View)
    requires Moves(t, s, v, w) && PairOk(t, v.pc, s, v.x) && SessOk(s, v.x, v.q) && Distinct(v.q)
    ensures SessOk(s, w.x, w.q) && Distinct(w.q)
  {
    hide Moves, PairOk;
    ClaimMoves(t, s, v, w);
  }

  lemma OtherSess(t: nat, s: nat, v: View, w: View, s2: nat, x2: Sess)
    requires Moves(t, s, v, w) && s2 != s && SessOk(s2, x2, v.q)
    ensures SessOk(s2, x2, w.q)
  {
  }

  // --------------------------------------------------------- no lost wake-ups

  /** The thread has yet to look whether the session needs a worker. */
  ghost predicate Helps(pc: Pc, s: nat) { (pc.Pushed? || pc.Rechecking? || pc.Looking? || pc.Reclaiming?) && pc.s == s }

  /** Packets of an open session have an owner, or somebody about to find one. */
  ghost predicate Attended(x: Sess, helped: bool) { !x.die && x.queue != [] ==> x.running || helped }

  /** A step that ends help has seen to it that none is needed. */
  lemma HelpEnds(t: nat, s: nat, v: View, w: View, others: bool)
    requires Moves(t, s, v, w) && PairOk(t, v.pc, s, v.x) && SessOk(s, v.x, v.q)
    requires Attended(v.x, others || Helps(v.pc, s))
    ensures Attended(w.x, others || Helps(w.pc, s))
  {
  }

  lemma HelpElsewhere(t: nat, s: nat, v: View, w: View, s2: nat)
    requires Moves(t, s, v, w) && s2 != s
    ensures Helps(v.pc, s2) ==> Helps(w.pc, s2)
  {
  }

  // -------------------------------------------------------------------- signals

  /** On its way to the worker queue, or about to signal that there is an entry. */
  ghost predicate AtWork(pc: Pc) { (IsWorker(pc) && !pc.Waiting?) || pc.Signalling? }

  lemma WorkMoves(t: nat, s: nat, v: View, w: View, others: bool)
    requires Moves(t, s, v, w) && (v.q != [] ==> others || AtWork(v.pc))
    ensures w.q != [] ==> others || AtWork(w.pc)
    ensures IsWorker(v.pc) ==> IsWorker(w.pc)
  {
  }

  // ------------------------------------------------------------- whole states

  ghost predicate PairAt(h: State, t: nat, s: nat) {
    t < |h.pcs| && s < |h.sess| ==> PairOk(t, h.pcs[t], s, h.sess[s])
  }

  ghost predicate SessAt(h: State, s: nat) { s < |h.sess| ==> SessOk(s, h.sess[s], h.q) }

  ghost predicate HelpsAt(h: State, t: nat, s: nat) { t < |h.pcs| && Helps(h.pcs[t], s) }

  ghost predicate AttendedAt(h: State, s: nat) { s < |h.sess| ==> Attended(h.sess[s], exists t :: HelpsAt(h, t, s)) }

  ghost predicate AtWorkAt(h: State, t: nat) { t < |h.pcs| && AtWork(h.pcs[t]) }

  /** Thread 0 is a worker, and a non-empty worker queue never finds every worker
      asleep without a signal on its way. */
  ghost predicate Staffed(h: State) {
    |h.pcs| > 0 && IsWorker(h.pcs[0]) && (h.q != [] ==> exists t :: AtWorkAt(h, t))
  }

  /** Worker t uses record r. */
  ghost predicate HasRecord(h: State, t: nat, r: nat) { t < |h.pcs| && t < |h.rec| && Started(h.pcs[t]) && h.rec[t] == r }

  ghost predicate RecordAt(h: State, t: nat) { t < |h.pcs| && t < |h.rec| && Started(h.pcs[t]) ==> h.rec[t] < |h.recs| }

  /** Every started worker has a record, and every record in the pool has a worker. */
  ghost predicate Recorded(h: State) {
    (forall t :: RecordAt(h, t)) && forall r :: r in h.pool ==> exists t :: HasRecord(h, t, r)
  }

  ghost predicate Inv(h: State) {
    && |h.pcs| == |h.rec|
    && (forall t, s :: PairAt(h, t, s))
    && (forall s :: SessAt(h, s))
    && Distinct(h.q)
    && (forall s :: AttendedAt(h, s))
    && Staffed(h)
    && Recorded(h)
  }

  lemma LocalMoves(h: State, h': State, t: nat, s: nat)
    requires Local(h, h', t, s)
    ensures t < |h.pcs| == |h.rec| && s < |h.sess|
    ensures |h'.pcs| == |h.pcs| && |h'.sess| == |h.sess| && h'.rec == h.rec && |h'.recs| == |h.recs|
    ensures At(h.pcs[t], s) && Moves(t, s, ViewOf(h, t, s), ViewOf(h', t, s))
    ensures forall u :: 0 <= u < |h.pcs| && u != t ==> h'.pcs[u] == h.pcs[u]
    ensures forall s2 :: 0 <= s2 < |h.sess| && s2 != s ==> h'.sess[s2] == h.sess[s2]
  {
    hide Produces, Closes, Works, Finishes, PutsBack, Batch;
  }

  lemma LocalPair(h: State, h': State, t: nat, s: nat, u: nat, s2: nat)
    requires Inv(h) && Local(h, h', t, s)
    ensures PairAt(h', u, s2)
  {
    hide Local, Moves, PairOk, SessOk, AttendedAt, Recorded, Staffed, Rely, Batch;
    LocalMoves(h, h', t, s);
    var v, w := ViewOf(h, t, s), ViewOf(h', t, s);
    if u < |h.pcs| && s2 < |h.sess| {
      assert PairAt(h, u, s2) && PairAt(h, t, s) && SessAt(h, s);
      if u == t {
        if s2 == s { OwnPair(t, s, v, w); } else { OtherPair(t, s, v, w, s2, h.sess[s2]); }
      } else if s2 == s {
        StepGuarantees(t, s, v, w, u);
        RelyKeeps(u, h.pcs[u], s, v.x, w.x);
      }
    }
  }

  lemma LocalSess(h: State, h': State, t: nat, s: nat, s2: nat)
    requires Inv(h) && Local(h, h', t, s)
    ensures SessAt(h', s2) && Distinct(h'.q)
  {
    hide Local, Moves, PairOk, SessOk, AttendedAt, Recorded, Staffed, Distinct, Batch;
    LocalMoves(h, h', t, s);
    var v, w := ViewOf(h, t, s), ViewOf(h', t, s);
    assert PairAt(h, t, s) && SessAt(h, s) && SessAt(h, s2);
    OwnSess(t, s, v, w);
    if s2 < |h.sess| && s2 != s { OtherSess(t, s, v, w, s2, h.sess[s2]); }
  }

  lemma LocalAttended(h: State, h': State, t: nat, s: nat, s2: nat)
    requires Inv(h) && Local(h, h', t, s)
    ensures AttendedAt(h', s2)
  {
    hide Local, Moves, PairOk, SessOk, Recorded, Staffed, Distinct, Helps, Batch;
    LocalMoves(h, h', t, s);
    var v, w := ViewOf(h, t, s), ViewOf(h', t, s);
    assert PairAt(h, t, s) && SessAt(h, s) && AttendedAt(h, s2);
    assert forall u: nat :: u != t && HelpsAt(h, u, s2) ==> HelpsAt(h', u, s2);
    if s2 == s {
      var others := exists u: nat :: u != t && HelpsAt(h, u, s);
      assert (exists u :: HelpsAt(h, u, s)) ==> others || Helps(v.pc, s);
      HelpEnds(t, s, v, w, others);
      assert Helps(w.pc, s) ==> HelpsAt(h', t, s);
    } else if s2 < |h.sess| {
      HelpElsewhere(t, s, v, w, s2);
      assert HelpsAt(h, t, s2) ==> HelpsAt(h', t, s2);
    }
  }

  lemma LocalStaffed(h: State, h': State, t: nat, s: nat)
    requires Inv(h) && Local(h, h', t, s)
    ensures Staffed(h')
  {
    hide Local, Moves, PairAt, SessAt, AttendedAt, Recorded, Distinct, AtWork, IsWorker, Batch;
    LocalMoves(h, h', t, s);
    var v, w := ViewOf(h, t, s), ViewOf(h', t, s);
    assert forall u: nat :: u != t && AtWorkAt(h, u) ==> AtWorkAt(h', u);
    var others := exists u: nat :: u != t && AtWorkAt(h, u);
    assert (exists u :: AtWorkAt(h, u)) ==> others || AtWork(v.pc);
    WorkMoves(t, s, v, w, others);
    assert AtWork(w.pc) ==> AtWorkAt(h', t);
  }

  lemma StaysStartedWorking(t: nat, s: nat, v: View, w: View)
    requires At(v.pc, s) && Works(t, s, v, w)
    ensures Started(w.pc) <==> Started(v.pc)
    ensures PutsBack(v) ==> Started(v.pc)
  {
  }

  lemma StaysStartedOtherwise(t: nat, s: nat, v: View, w: View)
    requires At(v.pc, s) && (Produces(t, s, v, w) || Closes(t, s, v, w) || Finishes(t, s, v, w))
    ensures Started(w.pc) <==> Started(v.pc)
    ensures PutsBack(v) ==> Started(v.pc)
  {
  }

  /** A step neither starts nor stops a worker. */
  lemma StaysStarted(t: nat, s: nat, v: View, w: View)
    requires Moves(t, s, v, w)
    ensures Started(w.pc) <==> Started(v.pc)
    ensures PutsBack(v) ==> Started(v.pc)
  {
    hide Produces, Closes, Works, Finishes;
    if Works(t, s, v, w) { StaysStartedWorking(t, s, v, w); } else { StaysStartedOtherwise(t, s, v, w); }
  }

  lemma LocalStarted(h: State, h': State, t: nat, s: nat, u: nat)
    requires Local(h, h', t, s) && u < |h.pcs|
    ensures u < |h'.pcs| && (Started(h'.pcs[u]) <==> Started(h.pcs[u])) && h'.rec == h.rec && |h'.recs| == |h.recs| && |h.rec| == |h.pcs|
  {
    hide Local, Moves, Started, Batch;
    LocalMoves(h, h', t, s);
    StaysStarted(t, s, ViewOf(h, t, s), ViewOf(h', t, s));
  }

  lemma LocalPool(h: State, h': State, t: nat, s: nat)
    requires Local(h, h', t, s)
    ensures h'.pool == h.pool || (Started(h.pcs[t]) && h'.pool == h.pool + multiset{h.rec[t]})
  {
    hide Produces, Closes, Works, Finishes, Batch;
    StaysStarted(t, s, ViewOf(h, t, s), ViewOf(h', t, s));
  }

  lemma LocalRecorded(h: State, h': State, t: nat, s: nat)
    requires Inv(h) && Local(h, h', t, s)
    ensures Recorded(h')
  {
    hide Local, PairAt, SessAt, AttendedAt, Staffed, Distinct, Started;
    LocalMoves(h, h', t, s);
    LocalPool(h, h', t, s);
    forall u: nat ensures RecordAt(h', u) {
      assert RecordAt(h, u);
      if u < |h.pcs| { LocalStarted(h, h', t, s, u); }
    }
    forall r: nat | r in h'.pool ensures exists u :: HasRecord(h', u, r) {
      if r in h.pool {
        var u: nat :| HasRecord(h, u, r);
        LocalStarted(h, h', t, s, u);
        assert HasRecord(h', u, r);
      } else {
        LocalStarted(h, h', t, s, t);
        assert HasRecord(h', t, r);
      }
    }
  }

  lemma LocalKeeps(h: State, h': State, t: nat, s: nat)
    requires Inv(h) && Local(h, h', t, s)
    ensures Inv(h')
  {
    hide Local, PairAt, SessAt, AttendedAt, Recorded, Staffed, Distinct;
    assert |h'.pcs| == |h'.rec| by { LocalMoves(h, h', t, s); }
    forall u: nat, s2: nat ensures PairAt(h', u, s2) { LocalPair(h, h', t, s, u, s2); }
    forall s2: nat ensures SessAt(h', s2) { LocalSess(h, h', t, s, s2); }
    LocalSess(h, h', t, s, s);
    forall s2: nat ensures AttendedAt(h', s2) { LocalAttended(h, h', t, s, s2); }
    LocalStaffed(h, h', t, s);
    LocalRecorded(h, h', t, s);
  }

  // ------------------------------------------------- steps that signal or start

  /** Signalling and starting move threads only between places with the same
      obligations. */
  ghost predicate SamePlace(pc: Pc, pc': Pc) {
    || pc' == pc
    || (pc.Signalling? && pc' == Holding(pc.s, pc.closing))
    || ((pc.Unstarted? || pc.Waiting? || pc.WorkerSignalling?) && pc' == Checking)
  }

  lemma SamePlaceKeeps(t: nat, pc: Pc, pc': Pc)
    requires SamePlace(pc, pc')
    ensures forall s, x :: PairOk(t, pc, s, x) ==> PairOk(t, pc', s, x)
    ensures forall s :: Helps(pc, s) <==> Helps(pc', s)
    ensures IsWorker(pc) ==> IsWorker(pc')
    ensures Started(pc) ==> Started(pc')
  {
  }

  /** Only places change, and records and the pool when a worker starts. */
  ghost predicate Quiet(h: State, h': State) {
    && h'.sess == h.sess && h'.q == h.q && |h'.pcs| == |h.pcs|
    && forall u :: 0 <= u < |h.pcs| ==> SamePlace(h.pcs[u], h'.pcs[u])
  }

  lemma SignalMoves(h: State, h': State, t: nat)
    requires Signals(h, h', t)
    ensures h' == h.(pcs := h'.pcs) && Quiet(h, h')
    ensures forall u :: 0 <= u < |h.pcs| ==> (Started(h'.pcs[u]) <==> Started(h.pcs[u]))
  {
  }

  /** What every start does, whatever record the worker gets. */
  ghost predicate Begins(h: State, h': State, t: nat) {
    && t < |h.pcs| && t < |h.rec| && t < |h'.rec| && h.pcs[t].Unstarted? && h'.sess == h.sess && h'.q == h.q
    && h'.pcs == h.pcs[t := Checking] && h'.rec == h.rec[t := h'.rec[t]] && h.recs <= h'.recs
  }

  lemma StartBegins(h: State, h': State) returns (t: nat)
    requires Starts(h, h')
    ensures Begins(h, h', t)
  {
    if u: nat :| StartsNew(h, h', u) { t := u; } else { var u: nat, r: nat :| StartsPooled(h, h', u, r); t := u; }
  }

  lemma StartMoves(h: State, h': State)
    requires Starts(h, h')
    ensures Quiet(h, h') && |h'.rec| == |h.rec| && |h.recs| <= |h'.recs|
    ensures forall u :: 0 <= u < |h.pcs| && Started(h.pcs[u]) ==> h'.pcs[u] == h.pcs[u]
    ensures forall u :: 0 <= u < |h.pcs| && u < |h.rec| && Started(h.pcs[u]) ==> h'.rec[u] == h.rec[u]
  {
    hide Starts, IsWorker;
    var t := StartBegins(h, h');
  }

  lemma SignalStaffed(h: State, h': State, t: nat)
    requires Staffed(h) && Signals(h, h', t)
    ensures Staffed(h')
  {
    SignalMoves(h, h', t);
    SamePlaceKeeps(0, h.pcs[0], h'.pcs[0]);
    if u :| 0 <= u < |h.pcs| && h.pcs[u].Waiting? && h'.pcs[u] == Checking {
      assert AtWorkAt(h', u);
    } else {
      assert AtWorkAt(h', 0);
    }
  }

  lemma StartStaffed(h: State, h': State)
    requires Staffed(h) && Starts(h, h')
    ensures Staffed(h')
  {
    hide Starts;
    StartMoves(h, h');
    SamePlaceKeeps(0, h.pcs[0], h'.pcs[0]);
    if h.q != [] {
      var t: nat :| AtWorkAt(h, t);
      StartAtWork(h, h', t);
    }
  }

  lemma StartAtWork(h: State, h': State, t: nat)
    requires Starts(h, h') && AtWorkAt(h, t)
    ensures AtWorkAt(h', t)
  {
    hide Starts;
    var u := StartBegins(h, h');
  }

  lemma SignalRecorded(h: State, h': State, t: nat)
    requires |h.pcs| == |h.rec| && Recorded(h) && Signals(h, h', t)
    ensures Recorded(h')
  {
    hide Signals, Quiet, Started;
    SignalMoves(h, h', t);
    forall u: nat ensures RecordAt(h', u) { assert RecordAt(h, u) && |h'.pcs| == |h.pcs| by { QuietSize(h, h'); } }
    forall r: nat | r in h'.pool ensures exists u :: HasRecord(h', u, r) {
      var u: nat :| HasRecord(h, u, r);
      QuietSize(h, h');
      assert HasRecord(h', u, r);
    }
  }

  lemma QuietSize(h: State, h': State)
    requires Quiet(h, h')
    ensures |h'.pcs| == |h.pcs| && h'.sess == h.sess && h'.q == h.q
  {
  }

  lemma StartRecorded(h: State, h': State)
    requires |h.pcs| == |h.rec| && Recorded(h) && Starts(h, h')
    ensures Recorded(h')
  {
    hide Quiet;
    StartMoves(h, h');
    QuietSize(h, h');
    if t: nat :| StartsNew(h, h', t) {
      forall u: nat ensures RecordAt(h', u) { assert RecordAt(h, u); }
    } else {
      var t: nat, r: nat :| StartsPooled(h, h', t, r);
      var u0: nat :| HasRecord(h, u0, r);
      forall u: nat ensures RecordAt(h', u) { assert RecordAt(h, u) && RecordAt(h, u0); }
    }
    forall r: nat | r in h'.pool ensures exists u :: HasRecord(h', u, r) {
      assert r in h.pool;
      var u: nat :| HasRecord(h, u, r);
      assert HasRecord(h', u, r);
    }
  }

  lemma QuietKeeps(h: State, h': State)
    requires Inv(h) && Quiet(h, h') && Staffed(h') && Recorded(h') && |h'.rec| == |h.rec|
    ensures Inv(h')
  {
    hide PairOk, Helps, Distinct, SamePlace, Staffed, Recorded, Started;
    forall u: nat, s: nat ensures PairAt(h', u, s) && (HelpsAt(h, u, s) ==> HelpsAt(h', u, s)) {
      assert PairAt(h, u, s);
      if u < |h.pcs| { SamePlaceKeeps(u, h.pcs[u], h'.pcs[u]); }
    }
    forall s: nat ensures SessAt(h', s) && AttendedAt(h', s) { assert SessAt(h, s) && AttendedAt(h, s); }
  }

  // ---------------------------------------------------------------------- runs

  const NEW: Sess := Sess([], false, Nobody, false, false, false, Free, Free, [], [])

  /** Any number of new sessions, of idle callers and of workers yet to start, at
      least one. */
  ghost predicate Start(h: State) {
    && (forall s :: 0 <= s < |h.sess| ==> h.sess[s] == NEW)
    && h.q == [] && 0 < |h.pcs| == |h.rec| && h.pcs[0] == Unstarted && h.recs == [] && h.pool == multiset{}
    && forall t :: 0 <= t < |h.pcs| ==> h.pcs[t] == Idle || h.pcs[t] == Unstarted
  }

  ghost predicate IsRun(hs: seq<State>) {
    |hs| > 0 && Start(hs[0]) && forall i :: 0 <= i < |hs| - 1 ==> Step(hs[i], hs[i + 1])
  }

  lemma StartOk(h: State)
    requires Start(h)
    ensures Inv(h)
  {
  }

  lemma StepKeeps(h: State, h': State)
    requires Inv(h) && Step(h, h')
    ensures Inv(h') && |h'.sess| == |h.sess| && |h'.pcs| == |h.pcs|
  {
    hide Inv, Local, Signals, Starts, Quiet, Staffed, Recorded;
    if t: nat, s: nat :| Local(h, h', t, s) {
      LocalKeeps(h, h', t, s);
      LocalMoves(h, h', t, s);
    } else {
      InvParts(h);
      if t: nat :| Signals(h, h', t) {
        SignalMoves(h, h', t);
        SignalStaffed(h, h', t);
        SignalRecorded(h, h', t);
      } else {
        StartMoves(h, h');
        StartStaffed(h, h');
        StartRecorded(h, h');
      }
      QuietKeeps(h, h');
      QuietSize(h, h');
    }
  }

  lemma InvParts(h: State)
    requires Inv(h)
    ensures |h.pcs| == |h.rec| && Staffed(h) && Recorded(h)
  {
  }

  lemma {:induction false} RunsKeep(hs: seq<State>, n: nat)
    requires IsRun(hs) && n < |hs|
    ensures Inv(hs[n]) && |hs[n].sess| == |hs[0].sess| && |hs[n].pcs| == |hs[0].pcs|
  {
    hide Inv, Start, Step;
    if n == 0 { StartOk(hs[0]); } else { RunsKeep(hs, n - 1); StepKeeps(hs[n - 1], hs[n]); }
  }

  // ---------------------------------------------------- hand-off, in every run

  /** The k-th place a claim of session s can be: an entry of the worker queue, or
      a thread. */
  ghost predicate Token(h: State, s: nat, k: nat) {
    if k < |h.q| then h.q[k] == s
    else k - |h.q| < |h.pcs| && Owns(h.pcs[k - |h.q|]) && h.pcs[k - |h.q|].s == s
  }

  lemma TokenIsOwner(h: State, s: nat, k: nat)
    requires Inv(h) && s < |h.sess| && Token(h, s, k)
    ensures h.sess[s].owner == if k < |h.q| then Queued else Held(k - |h.q|)
  {
    assert SessAt(h, s);
    if k >= |h.q| { assert PairAt(h, k - |h.q|, s); }
  }

  lemma OwnerHasToken(h: State, s: nat) returns (k: nat)
    requires Inv(h) && s < |h.sess| && h.sess[s].running && (h.sess[s].owner.Held? ==> h.sess[s].owner.t < |h.pcs|)
    ensures Token(h, s, k)
  {
    assert SessAt(h, s);
    match h.sess[s].owner
    case Queued => k :| 0 <= k < |h.q| && h.q[k] == s;
    case Held(t) => assert PairAt(h, t, s); k := |h.q| + t;
  }

  /** The claim flag is set exactly when there is a claim, and there is never more
      than one: a queue entry, a worker, or a producer about to enqueue. */
  lemma OneClaim(hs: seq<State>, n: nat, s: nat)
    requires IsRun(hs) && n < |hs| && s < |hs[n].sess|
    ensures hs[n].sess[s].running <==> exists k :: Token(hs[n], s, k)
    ensures forall k, l :: Token(hs[n], s, k) && Token(hs[n], s, l) ==> k == l
  {
    hide Inv, Start, Step, Token;
    RunsKeep(hs, n);
    OwnerInRange(hs, n, s);
    if hs[n].sess[s].running { var k := OwnerHasToken(hs[n], s); }
    if k :| Token(hs[n], s, k) {
      TokenIsOwner(hs[n], s, k);
      assert hs[n].sess[s].running by { ClaimIsFlag(hs[n], s); }
    }
    forall k, l | Token(hs[n], s, k) && Token(hs[n], s, l) ensures k == l {
      TokensAgree(hs[n], s, k, l);
    }
  }

  lemma TokensAgree(h: State, s: nat, k: nat, l: nat)
    requires Inv(h) && s < |h.sess| && Token(h, s, k) && Token(h, s, l)
    ensures k == l
  {
    TokenIsOwner(h, s, k);
    TokenIsOwner(h, s, l);
  }

  lemma ClaimIsFlag(h: State, s: nat)
    requires Inv(h) && s < |h.sess|
    ensures h.sess[s].running <==> h.sess[s].owner != Nobody
  {
    assert SessAt(h, s);
  }

  lemma {:induction false} OwnerInRange(hs: seq<State>, n: nat, s: nat)
    requires IsRun(hs) && n < |hs| && s < |hs[n].sess|
    ensures hs[n].sess[s].owner.Held? ==> hs[n].sess[s].owner.t < |hs[n].pcs|
  {
    hide Inv, Step;
    if n > 0 {
      RunsKeep(hs, n - 1);
      RunsKeep(hs, n);
      OwnerInRange(hs, n - 1, s);
      OwnerStep(hs[n - 1], hs[n], s);
    }
  }

  lemma OwnerStep(h: State, h': State, s: nat)
    requires Inv(h) && Step(h, h') && s < |h.sess| && (h.sess[s].owner.Held? ==> h.sess[s].owner.t < |h.pcs|)
    ensures s < |h'.sess| && (h'.sess[s].owner.Held? ==> h'.sess[s].owner.t < |h'.pcs|)
  {
    hide Inv, Local, Signals, Starts, Moves;
    if t: nat, s1: nat :| Local(h, h', t, s1) {
      LocalMoves(h, h', t, s1);
      if s1 == s {
        assert PairOk(t, h.pcs[t], s, h.sess[s]) by { InvPair(h, t, s); }
        ClaimMoves(t, s, ViewOf(h, t, s), ViewOf(h', t, s));
      }
    } else {
      QuietElse(h, h');
    }
  }

  /** A step that is none of a session's changes no session. */
  lemma QuietElse(h: State, h': State)
    requires Step(h, h') && !exists t: nat, s: nat :: Local(h, h', t, s)
    ensures h'.sess == h.sess && h'.q == h.q && |h'.pcs| == |h.pcs|
  {
    hide Local, Signals, Starts, Quiet;
    if t: nat :| Signals(h, h', t) { SignalMoves(h, h', t); } else { StartMoves(h, h'); }
    QuietSize(h, h');
  }

  lemma InvPair(h: State, t: nat, s: nat)
    requires Inv(h) && t < |h.pcs| && s < |h.sess|
    ensures PairOk(t, h.pcs[t], s, h.sess[s])
  {
    assert PairAt(h, t, s);
  }

  /** Hand-off without lost wake-ups: packets waiting at an open session always have
      a claim that will reach them, a producer about to claim, or a worker that has
      yet to look again; and a non-empty worker queue has a worker that is awake, or
      a signal about to be sent. */
  lemma NoLostWakeUps(hs: seq<State>, n: nat, s: nat)
    requires IsRun(hs) && n < |hs| && s < |hs[n].sess|
    ensures var h := hs[n];
            !h.sess[s].die && h.sess[s].queue != [] ==> (exists k :: Token(h, s, k)) || (exists t :: HelpsAt(h, t, s))
    ensures hs[n].q != [] ==> exists t :: AtWorkAt(hs[n], t)
  {
    hide Start, Step, Token;
    RunsKeep(hs, n);
    OneClaim(hs, n, s);
    assert AttendedAt(hs[n], s);
  }

  // ---------------------------------------------------------- Close, in every run

  /** What Close has done to a session is never undone. */
  lemma StepOneWay(h: State, h': State, s: nat)
    requires Inv(h) && Step(h, h') && s < |h.sess|
    ensures s < |h'.sess|
    ensures h.sess[s].die ==> h'.sess[s].die && |h'.sess[s].queue| <= |h.sess[s].queue|
    ensures h.sess[s].gate ==> h'.sess[s].gate
  {
    hide Inv, Local, Signals, Starts, Moves, PairOk, SessOk;
    if t: nat, s1: nat :| Local(h, h', t, s1) {
      LocalMoves(h, h', t, s1);
      InvPair(h, t, s1);
      assert SessOk(s1, h.sess[s1], h.q) by { InvSess(h, s1); }
      StepGuarantees(t, s1, ViewOf(h, t, s1), ViewOf(h', t, s1), t + 1);
    } else {
      QuietElse(h, h');
    }
  }

  lemma InvSess(h: State, s: nat)
    requires Inv(h) && s < |h.sess|
    ensures SessOk(s, h.sess[s], h.q)
  {
    assert SessAt(h, s);
  }

  lemma {:induction false} OneWay(hs: seq<State>, m: nat, n: nat, s: nat)
    requires IsRun(hs) && m <= n < |hs| && s < |hs[m].sess|
    ensures s < |hs[n].sess|
    ensures hs[m].sess[s].die ==> hs[n].sess[s].die && |hs[n].sess[s].queue| <= |hs[m].sess[s].queue|
    ensures hs[m].sess[s].gate ==> hs[n].sess[s].gate
    decreases n
  {
    hide Inv, Start, Step;
    if m < n {
      OneWay(hs, m, n - 1, s);
      RunsKeep(hs, n - 1);
      StepOneWay(hs[n - 1], hs[n], s);
    }
  }

  /** Close safety: once Close has shut the gate of a session, no worker is in, or
      ever again enters, tx for it; and once its drain has finished, the session's
      queue stays empty for good. */
  lemma CloseIsFinal(hs: seq<State>, m: nat, n: nat, s: nat, t: nat)
    requires IsRun(hs) && m <= n < |hs| && s < |hs[m].sess| && t < |hs[n].pcs|
    ensures s < |hs[n].sess|
    ensures hs[m].sess[s].gate ==> !(hs[n].pcs[t].InTx? && hs[n].pcs[t].s == s)
    ensures (exists c: nat :: c < |hs[m].pcs| && hs[m].pcs[c] == Done(s)) ==> hs[n].sess[s].queue == []
  {
    hide Inv, Start, Step;
    OneWay(hs, m, n, s);
    RunsKeep(hs, m);
    RunsKeep(hs, n);
    InvPair(hs[n], t, s);
    if c: nat :| c < |hs[m].pcs| && hs[m].pcs[c] == Done(s) { InvPair(hs[m], c, s); }
  }
}
