/** How often, and why, each sequence number is sent over a whole run. */
module Accounting {
  import opened Facts
  import opened Serial
  import opened KcpState
  import opened WireFormat
  import opened KcpWindows

  /** The sends of one sequence number so far, by reason. */
  datatype Sends = Sends(first: nat, fast: nat, early: nat, timeout: nat)

  const NEVER: Sends := Sends(0, 0, 0, 0)

  function Total(s: Sends): nat { s.first + s.fast + s.early + s.timeout }

  function Add(s: Sends, kind: Kind): Sends {
    match kind
    case Skip => s
    case First => s.(first := s.first + 1)
    case Fast => s.(fast := s.fast + 1)
    case Early => s.(early := s.early + 1)
    case Timeout => s.(timeout := s.timeout + 1)
  }

  /** Fast and early resends are paid for by timeouts, with one in advance; xmit
      counts all sends; there is one first send until the 32-bit counter wraps. */
  ghost predicate Entry(g: Segment, s: Sends) {
    && g.xmit == W(Total(s))
    && s.fast + s.early <= s.timeout + (if g.fastack == U32_MAX then 1 else 0)
    && (Total(s) < RANGE ==> s.first == if Total(s) == 0 then 0 else 1)
  }

  ghost predicate Paid(s: Sends) {
    s.fast + s.early <= s.timeout + 1 && (Total(s) < RANGE ==> s.first == if Total(s) == 0 then 0 else 1)
  }

  // -------------------------------------------------------------- one segment

  lemma SendPaysFor(g: Segment, s: Sends, current: u32, now: u32, c: TxContext)
    requires Entry(g, s)
    ensures var kind := SendKind(g, current, c);
            var g' := if kind == Skip then g else Stamped(Scheduled(g, kind, current, c), now, c);
            Entry(g', Add(s, kind))
  {
    hide W;
    WAdd(Total(s), 1);
    var kind := SendKind(g, current, c);
    assert Total(Add(s, kind)) == if kind == Skip then Total(s) else Total(s) + 1;
    if Total(s) < RANGE { Unwrapped(Total(s)); }
  }

  /** Entry i of the buffer belongs to number base + i of the log. */
  ghost predicate EntryAt(buf: seq<Segment>, log: seq<Sends>, base: int, i: int)
    requires 0 <= base && base + |buf| <= |log| && 0 <= i < |buf|
  {
    Entry(buf[i], log[base + i])
  }

  ghost predicate Entries(buf: seq<Segment>, log: seq<Sends>, base: int) {
    0 <= base && base + |buf| <= |log| && forall i :: 0 <= i < |buf| ==> EntryAt(buf, log, base, i)
  }

  function At(log: seq<Sends>, j: nat): Sends { if j < |log| then log[j] else NEVER }

  /** The log after a flush: one more send for every number whose kind says so. */
  function Record(log: seq<Sends>, base: int, kinds: seq<Kind>): (log': seq<Sends>)
    requires 0 <= base <= |log|
    ensures |log'| == Max(|log|, base + |kinds|)
  {
    seq(Max(|log|, base + |kinds|), j requires 0 <= j < Max(|log|, base + |kinds|) =>
      if base <= j < base + |kinds| then Add(At(log, j), kinds[j - base]) else At(log, j))
  }

  // ------------------------------------------------------------ the transmit loop

  lemma TxOneEntry(t: Tx, g: Segment, s: Sends, i: nat, c: TxContext)
    requires Entry(g, s)
    ensures var t' := TxOne(t, g, i, c);
            && |t'.buf| == |t.buf| + 1 && |t'.kinds| == |t.kinds| + 1
            && Entry(t'.buf[|t.buf|], Add(s, t'.kinds[|t.kinds|]))
            && (g.acked ==> t'.kinds[|t.kinds|] == Skip)
  {
    var now := Now(c.clock, 3 + i);
    SendPaysFor(g, s, t.current, now, c);
  }

  /** Segment i of the loop's result, one send further. */
  ghost predicate Sent(t: Tx, i: int, g: Segment, s: Sends)
    requires 0 <= i < |t.buf| && i < |t.kinds|
  {
    Entry(t.buf[i], Add(s, t.kinds[i])) && (g.acked ==> t.kinds[i] == Skip)
  }

  lemma TxOneExtends(t: Tx, g: Segment, i: nat, c: TxContext)
    ensures var t' := TxOne(t, g, i, c);
            && |t'.buf| == |t.buf| + 1 && |t'.kinds| == |t.kinds| + 1
            && t'.buf[..|t.buf|] == t.buf && t'.kinds[..|t.kinds|] == t.kinds
  {
  }

  lemma {:induction false} TransmitEntries(buf: seq<Segment>, n: nat, c: TxContext, log: seq<Sends>, base: int, i: nat)
    requires i < n <= |buf| && Entries(buf, log, base)
    ensures Sent(Transmit(buf, n, c), i, buf[i], log[base + i])
  {
    hide Entry, TxOne;
    var t := Transmit(buf, n - 1, c);
    if i < n - 1 {
      TransmitEntries(buf, n - 1, c, log, base, i);
      TxOneExtends(t, buf[n-1], n - 1, c);
      assert TxOne(t, buf[n-1], n - 1, c).buf[i] == t.buf[i] && TxOne(t, buf[n-1], n - 1, c).kinds[i] == t.kinds[i];
    } else {
      assert EntryAt(buf, log, base, i);
      TxOneEntry(t, buf[i], log[base + i], i, c);
    }
  }

  // ------------------------------------------------------------------- states

  ghost predicate Unsent(q: seq<Segment>) {
    forall i :: 0 <= i < |q| ==> q[i].xmit == 0 && q[i].fastack == 0
  }

  ghost predicate Accounted(s: Sender, log: seq<Sends>) {
    && |log| == s.total && |s.buf| <= s.total
    && Entries(s.buf, log, Base(s)) && Unsent(s.queue)
    && forall j :: 0 <= j < |log| ==> Paid(log[j])
  }

  lemma {:induction false} FragmentsUnsent(data: seq<byte>, mss: u32, count: nat, stream: bool)
    requires count <= 255
    ensures Unsent(Fragments(data, mss, count, stream))
  {
    if count > 0 { FragmentsUnsent(data[Min(|data|, mss)..], mss, count - 1, stream); }
  }

  lemma EnqueueUnsent(q: seq<Segment>, data: seq<byte>, mss: pos32, stream: bool)
    requires Unsent(q)
    ensures Unsent(Enqueue(q, data, mss, stream).queue)
  {
    var rest := data[Extension(q, |data|, mss, stream)..];
    if FragmentCount(|rest|, mss) <= 255 { FragmentsUnsent(rest, mss, FragmentCount(|rest|, mss), stream); }
  }

  lemma CumulativeAccounted(s: Sender, una: u32, log: seq<Sends>)
    requires Accounted(s, log)
    ensures Accounted(Cumulative(s, una), log)
  {
    var n := Acknowledged(s, una);
    var c := Cumulative(s, una);
    forall i | 0 <= i < |c.buf| ensures EntryAt(c.buf, log, Base(c), i) {
      assert EntryAt(s.buf, log, Base(s), n + i);
    }
  }

  /** Only xmit and the saturation of fastack matter to the account. */
  lemma SameAccount(s: Sender, s': Sender, log: seq<Sends>)
    requires Accounted(s, log) && |s'.buf| == |s.buf| && s'.total == s.total && s'.queue == s.queue
    requires forall i :: 0 <= i < |s.buf| ==> s'.buf[i].xmit == s.buf[i].xmit && (s.buf[i].fastack == U32_MAX ==> s'.buf[i].fastack == U32_MAX)
    ensures Accounted(s', log)
  {
    forall i | 0 <= i < |s'.buf| ensures EntryAt(s'.buf, log, Base(s'), i) {
      assert EntryAt(s.buf, log, Base(s), i);
    }
  }

  /** Acknowledgements leave the account of what stays in the buffer alone. */
  lemma SenderAfterAccounted(s: Sender, w: Wire, log: seq<Sends>)
    requires Accounted(s, log)
    ensures Accounted(SenderAfter(s, w), log)
  {
    CumulativeAccounted(s, w.una, log);
    SameAccount(Cumulative(s, w.una), SenderAfter(s, w), log);
  }

  lemma {:induction false} AbsorbAccounted(k: State, ts: seq<Tagged>, regular: bool, log: seq<Sends>)
    requires Accounted(k.snd, log)
    ensures Accounted(Absorb(k, ts, regular).k.snd, log)
  {
    if ts != [] {
      AbsorbAccounted(k, ts[..|ts|-1], regular, log);
      SenderAfterAccounted(Absorb(k, ts[..|ts|-1], regular).k.snd, ts[|ts|-1].w, log);
    }
  }

  function EmptyAccounts(n: nat): (z: seq<Sends>)
    ensures |z| == n && forall i :: 0 <= i < n ==> z[i] == NEVER
  {
    seq(n, _ => NEVER)
  }

  lemma AdmittedAt(s: Sender, cwnd: u32, i: nat)
    requires i < |Admit(s, cwnd).buf|
    ensures |Admit(s, cwnd).buf| == |s.buf| + Admitted(s, cwnd)
    ensures Admit(s, cwnd).buf[i] == if i < |s.buf| then s.buf[i] else Numbered(s, i - |s.buf|)
    ensures i >= |s.buf| ==> Numbered(s, i - |s.buf|).xmit == s.queue[i - |s.buf|].xmit
  {
  }

  /** Admitted segments start with an empty account. */
  lemma AdmittedEntry(s: Sender, cwnd: u32, log: seq<Sends>, i: nat)
    requires Accounted(s, log) && i < |Admit(s, cwnd).buf|
    ensures EntryAt(Admit(s, cwnd).buf, log + EmptyAccounts(Admitted(s, cwnd)), Base(s), i)
  {
    hide Numbered, Entry, Paid, Admit, Admitted;
    AdmittedAt(s, cwnd, i);
    var log' := log + EmptyAccounts(Admitted(s, cwnd));
    if i < |s.buf| {
      assert EntryAt(s.buf, log, Base(s), i) && log'[Base(s) + i] == log[Base(s) + i];
    } else {
      assert s.queue[i - |s.buf|].xmit == 0;
      assert log'[Base(s) + i] == EmptyAccounts(Admitted(s, cwnd))[i - |s.buf|];
      FreshEntry(Numbered(s, i - |s.buf|));
    }
  }

  lemma NeverSent()
    ensures Total(NEVER) == 0 == W(Total(NEVER))
  {
  }

  lemma FreshEntry(g: Segment)
    requires g.xmit == 0
    ensures Entry(g, NEVER)
  {
    hide W, Total;
    NeverSent();
  }

  lemma AdmitAccounted(s: Sender, cwnd: u32, log: seq<Sends>)
    requires Accounted(s, log)
    ensures Accounted(Admit(s, cwnd), log + EmptyAccounts(Admitted(s, cwnd))) && Base(Admit(s, cwnd)) == Base(s)
  {
    var n := Admitted(s, cwnd);
    var s', log' := Admit(s, cwnd), log + EmptyAccounts(n);
    forall i | 0 <= i < |s'.buf| ensures EntryAt(s'.buf, log', Base(s), i) { AdmittedEntry(s, cwnd, log, i); }
    assert Unsent(s'.queue);
    forall j | 0 <= j < |log'| ensures Paid(log'[j]) { if j >= |log| { assert log'[j] == NEVER; } }
  }

  lemma EntryPaid(g: Segment, s: Sends)
    requires Entry(g, s)
    ensures Paid(s)
  {
  }

  lemma RecordAccounted(s: Sender, buf: seq<Segment>, kinds: seq<Kind>, log: seq<Sends>, log1: seq<Sends>)
    requires Accounted(s, log1) && |log| <= |log1| && log1 == log + EmptyAccounts(|log1| - |log|) && Base(s) <= |log|
    requires |buf| == |kinds| == |s.buf| && forall i :: 0 <= i < |buf| ==> Entry(buf[i], Add(log1[Base(s) + i], kinds[i]))
    ensures Accounted(s.(buf := buf), Record(log, Base(s), kinds))
  {
    hide Entry, Paid, Add;
    var base, log' := Base(s), Record(log, Base(s), kinds);
    forall i | 0 <= i < |buf| ensures EntryAt(buf, log', base, i) {
      assert At(log, base + i) == log1[base + i];
    }
    forall j | 0 <= j < |log'| ensures Paid(log'[j]) {
      if j >= base { assert EntryAt(buf, log', base, j - base); EntryPaid(buf[j - base], log'[j]); } else { assert log'[j] == log1[j]; }
    }
  }

  /** A flush adds exactly the sends it makes. */
  lemma FlushAccounted(k: State, full: bool, clock: seq<u32>, log: seq<Sends>)
    requires Accounted(k.snd, log)
    ensures var f := Flush(k, full, clock);
            && Base(f.k.snd) == Base(k.snd) && |f.kinds| == |f.k.snd.buf|
            && Accounted(f.k.snd, Record(log, Base(k.snd), f.kinds))
  {
    var w := EffectiveWindow(k);
    var s, log1 := Admit(k.snd, w), log + EmptyAccounts(Admitted(k.snd, w));
    var tx := FlushTx(k, full, clock);
    AdmitAccounted(k.snd, w, log);
    forall i | 0 <= i < |s.buf| ensures Entry(tx.buf[i], Add(log1[Base(s) + i], tx.kinds[i])) {
      if full { TransmitEntries(s.buf, |s.buf|, FlushContext(k, clock), log1, Base(s), i); }
      else { assert EntryAt(s.buf, log1, Base(s), i); }
    }
    RecordAccounted(s, tx.buf, tx.kinds, log, log1);
  }

  // --------------------------------------------------------------------- steps

  /** What the operation sends, number by number, and the packets it emits. */
  function Kinds(k: State, op: Op): seq<Kind> {
    match op
    case OpInput(data, ids, regular, ackNoDelay, clock) => InputBytes(k, data, ids, regular, ackNoDelay, clock).kinds
    case OpFlush(full, clock) => Flush(k, full, clock).kinds
    case _ => []
  }

  lemma RecordNothing(log: seq<Sends>, base: int)
    requires 0 <= base <= |log|
    ensures Record(log, base, []) == log
  {
  }

  function Outcome(k: State, choice: FlushChoice, clock: seq<u32>): FlushResult {
    if choice.NoFlush? then FlushResult(k, [], 0, []) else Flush(k, choice.Full?, clock)
  }

  /** Input is an absorption followed, perhaps, by one flush. */
  lemma InputIsFlush(k: State, op: Op) returns (k': State, choice: FlushChoice)
    requires op.OpInput?
    ensures exists ts, regular :: k'.snd == Absorb(k, ts, regular).k.snd
    ensures var f := Outcome(k', choice, op.clock); Step(k, op) == f.k && Kinds(k, op) == f.kinds && Emitted(k, op) == f.packets
  {
    var p := Parse(k.cfg.conv, op.data);
    var ts := TagAll(p.segs, op.ids);
    var a := Absorb(k, ts, op.regular);
    if p.code != 0 {
      k', choice := a.k, NoFlush;
    } else {
      k' := BeforeFlush(k, ts, op.regular, Now(op.clock, 0));
      choice := InputFlush(a.flush, k', op.ackNoDelay);
    }
  }

  lemma OutcomeAccounted(k: State, choice: FlushChoice, clock: seq<u32>, log: seq<Sends>)
    requires Accounted(k.snd, log)
    ensures var f := Outcome(k, choice, clock);
            0 <= Base(f.k.snd) <= |log| && Accounted(f.k.snd, Record(log, Base(f.k.snd), f.kinds))
  {
    FlushAccounted(k, choice.Full?, clock, log);
    RecordNothing(log, Base(k.snd));
  }

  lemma SendAccounted(k: State, buffer: seq<byte>, log: seq<Sends>)
    requires Accounted(k.snd, log)
    ensures Accounted(Send(k, buffer).k.snd, log) && Base(Send(k, buffer).k.snd) == Base(k.snd)
  {
    EnqueueUnsent(k.snd.queue, buffer, k.cfg.mss, k.cfg.stream);
    assert Entries(Send(k, buffer).k.snd.buf, log, Base(k.snd));
  }

  lemma BaseInLog(s: Sender, log: seq<Sends>)
    requires Accounted(s, log)
    ensures 0 <= Base(s) <= |log|
  {
  }

  lemma StepAccounted(k: State, op: Op, log: seq<Sends>)
    requires Accounted(k.snd, log)
    ensures var s := Step(k, op).snd;
            0 <= Base(s) <= |log| && Accounted(s, Record(log, Base(s), Kinds(k, op)))
  {
    hide Flush, InputBytes, Send, Recv, Accounted, Record, Absorb, Outcome, WndSize, NoDelay, SetMtu, Emitted;
    assert 0 <= Base(k.snd) <= |log| by { BaseInLog(k.snd, log); }
    match op
    case OpInput(_, _, _, _, clock) =>
      var k', choice := InputIsFlush(k, op);
      var ts, regular :| k'.snd == Absorb(k, ts, regular).k.snd;
      AbsorbAccounted(k, ts, regular, log);
      OutcomeAccounted(k', choice, clock, log);
    case OpFlush(full, clock) => FlushAccounted(k, full, clock, log);
    case OpSend(buffer) =>
      SendAccounted(k, buffer, log);
      RecordNothing(log, Base(k.snd));
    case OpResetRTO(now) =>
      SameAccount(k.snd, Step(k, op).snd, log);
      RecordNothing(log, Base(k.snd));
    case _ => QuietStep(k, op); RecordNothing(log, Base(k.snd));
  }

  lemma QuietStep(k: State, op: Op)
    requires !op.OpInput? && !op.OpFlush? && !op.OpSend? && !op.OpResetRTO?
    ensures Step(k, op).snd == k.snd
  {
  }

  // ------------------------------------------------------ acknowledged numbers

  /** Number j was acknowledged: it left the buffer, or is marked in it. */
  ghost predicate Settled(s: Sender, j: int) {
    j < Base(s) || (j < s.total && |s.buf| <= s.total && s.buf[j - Base(s)].acked)
  }

  lemma SenderAfterSettled(s: Sender, w: Wire, j: int)
    requires Settled(s, j) && |s.buf| <= s.total
    ensures Settled(SenderAfter(s, w), j) && |SenderAfter(s, w).buf| <= SenderAfter(s, w).total
  {
    var c := Cumulative(s, w.una);
    if j >= Base(c) { assert c.buf[j - Base(c)] == s.buf[j - Base(s)]; }
    var a := ParseAck(c, w.sn);
    if j >= Base(c) { assert a.buf[j - Base(c)].acked; }
  }

  lemma {:induction false} AbsorbSettled(k: State, ts: seq<Tagged>, regular: bool, j: int)
    requires Settled(k.snd, j) && |k.snd.buf| <= k.snd.total
    ensures var s := Absorb(k, ts, regular).k.snd; Settled(s, j) && |s.buf| <= s.total
  {
    if ts != [] {
      AbsorbSettled(k, ts[..|ts|-1], regular, j);
      SenderAfterSettled(Absorb(k, ts[..|ts|-1], regular).k.snd, ts[|ts|-1].w, j);
    }
  }

  /** Acknowledged segments are passed over. */
  lemma {:induction false} TransmitSkips(buf: seq<Segment>, n: nat, c: TxContext, i: nat)
    requires i < n <= |buf| && buf[i].acked
    ensures Transmit(buf, n, c).kinds[i] == Skip && Transmit(buf, n, c).buf[i].acked
  {
    if i < n - 1 { TransmitSkips(buf, n - 1, c, i); }
  }

  lemma FlushSettled(k: State, full: bool, clock: seq<u32>, j: int)
    requires Settled(k.snd, j) && |k.snd.buf| <= k.snd.total
    ensures var f := Flush(k, full, clock);
            && Settled(f.k.snd, j) && Base(f.k.snd) == Base(k.snd) && |f.kinds| == |f.k.snd.buf|
            && (j >= Base(k.snd) ==> f.kinds[j - Base(k.snd)] == Skip)
  {
    var s := Admit(k.snd, EffectiveWindow(k));
    if j >= Base(k.snd) {
      var i := j - Base(k.snd);
      AdmittedAt(k.snd, EffectiveWindow(k), i);
      if full { TransmitSkips(s.buf, |s.buf|, FlushContext(k, clock), i); }
    }
  }

  lemma RecordKeeps(log: seq<Sends>, base: int, kinds: seq<Kind>, j: nat)
    requires 0 <= base <= |log| && j < |log| && (base <= j < base + |kinds| ==> kinds[j - base] == Skip)
    ensures Record(log, base, kinds)[j] == log[j]
  {
  }

  lemma InputSettled(k: State, op: Op, j: nat)
    requires op.OpInput? && Settled(k.snd, j) && |k.snd.buf| <= k.snd.total
    ensures var s, kinds := Step(k, op).snd, Kinds(k, op);
            Settled(s, j) && (Base(s) <= j < Base(s) + |kinds| ==> kinds[j - Base(s)] == Skip)
  {
    hide Step, Kinds, Outcome, Settled, Absorb;
    var k', choice := InputIsFlush(k, op);
    var ts, regular :| k'.snd == Absorb(k, ts, regular).k.snd;
    AbsorbSettled(k, ts, regular, j);
    OutcomeSettled(k', choice, op.clock, j);
  }

  lemma OutcomeSettled(k: State, choice: FlushChoice, clock: seq<u32>, j: nat)
    requires Settled(k.snd, j) && |k.snd.buf| <= k.snd.total
    ensures var f := Outcome(k, choice, clock);
            var base := Base(f.k.snd);
            Settled(f.k.snd, j) && (base <= j < base + |f.kinds| ==> f.kinds[j - base] == Skip)
  {
    FlushSettled(k, choice.Full?, clock, j);
  }

  lemma LocalSettled(k: State, op: Op, j: nat)
    requires !op.OpInput? && !op.OpFlush? && Settled(k.snd, j)
    ensures Settled(Step(k, op).snd, j)
  {
    if !op.OpSend? && !op.OpResetRTO? { QuietStep(k, op); }
  }

  /** Once acknowledged, a number stays acknowledged and is never sent again. */
  lemma StepSettled(k: State, op: Op, log: seq<Sends>, j: nat)
    requires Accounted(k.snd, log) && Settled(k.snd, j) && 0 <= Base(Step(k, op).snd) <= |log|
    ensures var s := Step(k, op).snd; Settled(s, j) && Record(log, Base(s), Kinds(k, op))[j] == log[j]
  {
    hide Flush, InputBytes, Recv, Send, Record;
    match op {
      case OpInput(_, _, _, _, _) => InputSettled(k, op, j);
      case OpFlush(full, clock) => FlushSettled(k, full, clock, j);
      case _ => LocalSettled(k, op, j);
    }
    RecordKeeps(log, Base(Step(k, op).snd), Kinds(k, op), j);
  }

  // ------------------------------------------------- the packets on the wire

  /** How often the data segment with number `id` occurs. */
  function Pushes(ts: seq<Tagged>, id: int): nat {
    if ts == [] then 0 else Pushes(ts[..|ts|-1], id) + PushOf(ts[|ts|-1], id)
  }

  function PushOf(t: Tagged, id: int): nat { if t.w.cmd == CMD_PUSH && t.id == id then 1 else 0 }

  lemma PushesAppend(ts: seq<Tagged>, t: Tagged, id: int)
    ensures Pushes(ts + [t], id) == Pushes(ts, id) + PushOf(t, id)
  {
    assert (ts + [t])[..|ts|] == ts;
  }

  lemma {:induction false} PushesConcat(a: seq<Tagged>, b: seq<Tagged>, id: int)
    ensures Pushes(a + b, id) == Pushes(a, id) + Pushes(b, id)
  {
    if b == [] { assert a + b == a; } else {
      PushesConcat(a, b[..|b|-1], id);
      assert (a + b)[..|a + b|-1] == a + b[..|b|-1];
    }
  }

  lemma {:induction false} PutsConcat(a: seq<Item>, b: seq<Item>)
    ensures Puts(a + b) == Puts(a) + Puts(b)
  {
    hide PutOf, Puts;
    if b == [] {
      assert a + b == a && Puts(a) + [] == Puts(a);
      assert Puts(b) == [] by { NoPuts(); }
    } else {
      PutsConcat(a, b[..|b|-1]);
      assert (a + b)[..|a + b|-1] == a + b[..|b|-1];
      PutsLast(a + b);
      PutsLast(b);
      Assoc(Puts(a), Puts(b[..|b|-1]), PutOf(b[|b|-1]));
    }
  }

  lemma NoPuts()
    ensures Puts([]) == []
  {
  }

  lemma PutsLast(items: seq<Item>)
    requires items != []
    ensures Puts(items) == Puts(items[..|items|-1]) + PutOf(items[|items|-1])
  {
  }

  /** Acknowledgements and probes are not data. */
  lemma {:induction false} ControlHasNoPush(items: seq<Item>, id: int)
    requires forall i :: 0 <= i < |items| && items[i].Put? ==> items[i].t.w.cmd != CMD_PUSH
    ensures Pushes(Puts(items), id) == 0
  {
    if items != [] {
      ControlHasNoPush(items[..|items|-1], id);
      var init, last := items[..|items|-1], items[|items|-1];
      match last
      case Gap => assert Puts(init) + [] == Puts(init);
      case Put(t) => PushesAppend(Puts(init), t, id);
    }
  }

  /** 1 when number id is among the first |kinds| from base and sent, 0 otherwise. */
  function SentOf(kinds: seq<Kind>, base: int, id: int): nat {
    if base <= id < base + |kinds| && kinds[id - base] != Skip then 1 else 0
  }

  /** One round of the transmit loop appends the segment's packet, or nothing. */
  lemma TxOneItems(t: Tx, g: Segment, i: nat, c: TxContext)
    requires |t.kinds| == i
    ensures var t' := TxOne(t, g, i, c);
            && |t'.kinds| == i + 1 && t'.kinds[..i] == t.kinds
            && (t'.kinds[i] == Skip ==> t'.items == t.items)
            && (t'.kinds[i] != Skip ==> exists p :: t'.items == t.items + [Put(p)] && p.w.cmd == CMD_PUSH && p.id == c.base + i)
  {
    var t' := TxOne(t, g, i, c);
    if t'.kinds[i] != Skip {
      assert t'.items == t.items + [t'.items[|t.items|]];
      assert t'.items == t.items + [Put(t'.items[|t.items|].t)];
    }
  }

  lemma NextPushes(t: Tx, t': Tx, i: nat, base: int, id: int)
    requires |t.kinds| == i && |t'.kinds| == i + 1 && t'.kinds[..i] == t.kinds
    requires t'.kinds[i] == Skip ==> t'.items == t.items
    requires t'.kinds[i] != Skip ==> exists p :: t'.items == t.items + [Put(p)] && p.w.cmd == CMD_PUSH && p.id == base + i
    requires Pushes(Puts(t.items), id) == SentOf(t.kinds, base, id)
    ensures Pushes(Puts(t'.items), id) == SentOf(t'.kinds, base, id)
  {
    SentOfNext(t.kinds, t'.kinds, base, id);
    if t'.kinds[i] != Skip {
      var p :| t'.items == t.items + [Put(p)] && p.w.cmd == CMD_PUSH && p.id == base + i;
      assert t'.items[..|t.items|] == t.items;
      PushesAppend(Puts(t.items), p, id);
    }
  }

  lemma {:induction false} TransmitPushes(buf: seq<Segment>, n: nat, c: TxContext, id: int)
    requires n <= |buf|
    ensures Pushes(Puts(Transmit(buf, n, c).items), id) == SentOf(Transmit(buf, n, c).kinds, c.base, id)
  {
    if n > 0 {
      TransmitPushes(buf, n - 1, c, id);
      var t := Transmit(buf, n - 1, c);
      TxOneItems(t, buf[n-1], n - 1, c);
      NextPushes(t, TxOne(t, buf[n-1], n - 1, c), n - 1, c.base, id);
    }
  }

  lemma SentOfNext(kinds: seq<Kind>, kinds': seq<Kind>, base: int, id: int)
    requires |kinds'| == |kinds| + 1 && kinds'[..|kinds|] == kinds
    ensures SentOf(kinds', base, id) ==
            SentOf(kinds, base, id) + if kinds'[|kinds|] != Skip && id == base + |kinds| then 1 else 0
  {
    if base <= id < base + |kinds| { assert kinds'[id - base] == kinds[id - base]; }
  }

  lemma ControlItems(k: State, pr: Probe, id: int)
    ensures Pushes(Puts(AckItems(k) + ProbeItems(k, pr)), id) == 0
  {
    ControlHasNoPush(AckItems(k) + ProbeItems(k, pr), id);
  }

  lemma FlushTxPushes(k: State, full: bool, clock: seq<u32>, id: int)
    ensures Pushes(Puts(FlushTx(k, full, clock).items), id) == SentOf(FlushTx(k, full, clock).kinds, Base(k.snd), id)
  {
    var buf := Admit(k.snd, EffectiveWindow(k)).buf;
    if full { TransmitPushes(buf, |buf|, FlushContext(k, clock), id); }
  }

  lemma PacketPushes(mtu: u32, control: seq<Item>, data: seq<Item>, id: int)
    ensures Pushes(Flatten(Packets(mtu, control + data)), id) == Pushes(Puts(control), id) + Pushes(Puts(data), id)
  {
    PacketsPartition(mtu, control + data);
    PutsConcat(control, data);
    PushesConcat(Puts(control), Puts(data), id);
  }

  /** A flush puts a number on the wire exactly when its kind says so, and once. */
  lemma FlushPushes(k: State, full: bool, clock: seq<u32>, id: int)
    ensures var f := Flush(k, full, clock);
            Pushes(Flatten(f.packets), id) == SentOf(f.kinds, Base(k.snd), id)
  {
    var pr := NextProbe(k, Now(clock, 1));
    ControlItems(k, pr, id);
    FlushTxPushes(k, full, clock, id);
    PacketPushes(k.cfg.mtu, AckItems(k) + ProbeItems(k, pr), FlushTx(k, full, clock).items, id);
  }

  lemma OutcomePushes(k: State, choice: FlushChoice, clock: seq<u32>, id: int)
    ensures var f := Outcome(k, choice, clock); Pushes(Flatten(f.packets), id) == SentOf(f.kinds, Base(f.k.snd), id)
  {
    FlushPushes(k, choice.Full?, clock, id);
    FlushBase(k, choice.Full?, clock);
  }

  lemma StepPushes(k: State, op: Op, id: int)
    ensures Pushes(Flatten(Emitted(k, op)), id) == SentOf(Kinds(k, op), Base(Step(k, op).snd), id)
  {
    match op
    case OpInput(_, _, _, _, clock) =>
      var k', choice := InputIsFlush(k, op);
      OutcomePushes(k', choice, clock, id);
    case OpFlush(full, clock) => FlushPushes(k, full, clock, id); FlushBase(k, full, clock);
    case _ =>
  }

  lemma FlushBase(k: State, full: bool, clock: seq<u32>)
    ensures Base(Flush(k, full, clock).k.snd) == Base(k.snd)
  {
    var buf := Admit(k.snd, EffectiveWindow(k)).buf;
    if full { assert |Transmit(buf, |buf|, FlushContext(k, clock)).buf| == |buf|; }
  }

  // ---------------------------------------------------------------------- runs

  /** A run with its account: each flush adds the sends it makes. */
  ghost predicate IsAccount(ks: seq<State>, ops: seq<Op>, logs: seq<seq<Sends>>) {
    && IsRun(ks, ops) && |logs| == |ks|
    && forall i :: 0 <= i < |ops| ==> IsNextLog(ks[i], ops[i], ks[i + 1], logs[i], logs[i + 1])
  }

  ghost predicate IsNextLog(k: State, op: Op, k': State, log: seq<Sends>, log': seq<Sends>) {
    0 <= Base(k'.snd) <= |log| && log' == Record(log, Base(k'.snd), Kinds(k, op))
  }

  lemma {:induction false} RunsStayAccounted(conv: u32, ks: seq<State>, ops: seq<Op>, logs: seq<seq<Sends>>, n: nat)
    requires IsAccount(ks, ops, logs) && ks[0] == Fresh(conv) && logs[0] == [] && n < |ks|
    ensures Accounted(ks[n].snd, logs[n])
  {
    hide Step, Kinds, Record;
    if n > 0 {
      RunsStayAccounted(conv, ks, ops, logs, n - 1);
      StepAccounted(ks[n-1], ops[n-1], logs[n-1]);
      assert IsNextLog(ks[n-1], ops[n-1], ks[n], logs[n-1], logs[n]) && ks[n] == Step(ks[n-1], ops[n-1]);
    }
  }

  /** Every run has an account. */
  lemma {:induction false} AccountExists(conv: u32, ks: seq<State>, ops: seq<Op>) returns (logs: seq<seq<Sends>>)
    requires IsRun(ks, ops) && ks[0] == Fresh(conv)
    ensures IsAccount(ks, ops, logs) && logs[0] == []
    decreases |ops|
  {
    hide Step, Kinds, Record, Accounted, Fresh;
    logs := [[]];
    if ops != [] {
      var n := |ops| - 1;
      assert IsRun(ks[..|ks|-1], ops[..n]);
      var most := AccountExists(conv, ks[..|ks|-1], ops[..n]);
      RunsStayAccounted(conv, ks[..|ks|-1], ops[..n], most, n);
      StepAccounted(ks[n], ops[n], most[n]);
      assert ks[n + 1] == Step(ks[n], ops[n]);
      logs := most + [Record(most[n], Base(ks[n + 1].snd), Kinds(ks[n], ops[n]))];
      forall i | 0 <= i < |ops| ensures IsNextLog(ks[i], ops[i], ks[i + 1], logs[i], logs[i + 1]) {
        if i < n { assert IsNextLog(ks[..|ks|-1][i], ops[..n][i], ks[..|ks|-1][i + 1], most[i], most[i + 1]); }
      }
    }
  }

  /** Retransmission accounting: in every run, whatever bytes arrive, fast plus
      early resends of a number never exceed its timeouts plus one; and while a
      number is in the buffer, xmit counts its sends: one first send and the rest. */
  lemma ResendsArePaidFor(conv: u32, ks: seq<State>, ops: seq<Op>, logs: seq<seq<Sends>>, n: nat, j: nat)
    requires IsAccount(ks, ops, logs) && ks[0] == Fresh(conv) && logs[0] == [] && n < |ks| && j < |logs[n]|
    ensures logs[n][j].fast + logs[n][j].early <= logs[n][j].timeout + 1
    ensures var s := ks[n].snd;
            0 <= Base(s) <= j ==>
              && j - Base(s) < |s.buf|
              && s.buf[j - Base(s)].xmit == W(Total(logs[n][j]))
              && (0 < Total(logs[n][j]) < RANGE ==>
                   s.buf[j - Base(s)].xmit == 1 + logs[n][j].fast + logs[n][j].early + logs[n][j].timeout)
  {
    hide Step, Kinds, Record, W;
    RunsStayAccounted(conv, ks, ops, logs, n);
    var s := ks[n].snd;
    assert Paid(logs[n][j]);
    if j >= Base(s) {
      assert EntryAt(s.buf, logs[n], Base(s), j - Base(s));
      if Total(logs[n][j]) < RANGE { Unwrapped(Total(logs[n][j])); }
    }
  }

  /** Once acknowledged, a number is never sent again in the rest of the run. */
  lemma {:induction false} NeverSentAgain(conv: u32, ks: seq<State>, ops: seq<Op>, logs: seq<seq<Sends>>, m: nat, n: nat, j: nat)
    requires IsAccount(ks, ops, logs) && ks[0] == Fresh(conv) && logs[0] == [] && m <= n < |ks|
    requires j < |logs[m]| && Settled(ks[m].snd, j)
    ensures j < |logs[n]| && Settled(ks[n].snd, j) && logs[n][j] == logs[m][j]
    decreases n
  {
    hide Step, Kinds, Settled;
    if m < n {
      NeverSentAgain(conv, ks, ops, logs, m, n - 1, j);
      RunsStayAccounted(conv, ks, ops, logs, n - 1);
      assert IsNextLog(ks[n-1], ops[n-1], ks[n], logs[n-1], logs[n]) && ks[n] == Step(ks[n-1], ops[n-1]);
      StepSettled(ks[n-1], ops[n-1], logs[n-1], j);
    }
  }

  /** The account is what the wire sees: number j is in the packets of operation n
      exactly as often as its account grows. */
  lemma AccountIsTraffic(ks: seq<State>, ops: seq<Op>, logs: seq<seq<Sends>>, n: nat, j: nat)
    requires IsAccount(ks, ops, logs) && n < |ops|
    ensures Total(At(logs[n + 1], j)) == Total(At(logs[n], j)) + Pushes(Flatten(Emitted(ks[n], ops[n])), j)
  {
    hide Step, Kinds, Emitted, Pushes, Flatten, Record, SentOf, Total, At;
    assert IsNextLog(ks[n], ops[n], ks[n + 1], logs[n], logs[n + 1]) && ks[n + 1] == Step(ks[n], ops[n]);
    StepPushes(ks[n], ops[n], j);
    RecordTotal(logs[n], Base(ks[n + 1].snd), Kinds(ks[n], ops[n]), j);
  }

  lemma RecordTotal(log: seq<Sends>, base: int, kinds: seq<Kind>, j: nat)
    requires 0 <= base <= |log|
    ensures Total(At(Record(log, base, kinds), j)) == Total(At(log, j)) + SentOf(kinds, base, j)
  {
    hide Total, Add;
    var log' := Record(log, base, kinds);
    if base <= j < base + |kinds| { AddTotal(At(log, j), kinds[j - base]); }
    if j < |log'| { assert log'[j] == if base <= j < base + |kinds| then Add(At(log, j), kinds[j - base]) else At(log, j); }
  }

  lemma AddTotal(s: Sends, kind: Kind)
    ensures Total(Add(s, kind)) == Total(s) + if kind == Skip then 0 else 1
  {
  }
}
