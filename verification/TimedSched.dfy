/** The timed scheduler: a heap of tasks per shard, and the protocol by which Put
    wakes the goroutine that runs them. */
module TimedSched {
  import opened Options
  import Heap

  /** schedSlack, in the clock's unit of one millisecond. */
  const SLACK: int := 5

  datatype Task = Task(id: nat, ts: int)

  // -------------------------------------------------------------------- the heap

  predicate Before(a: Task, b: Task) { a.ts < b.ts }

  function Deadline(): Task -> int { (t: Task) => t.ts }

  ghost predicate Least(d: int, s: multiset<Task>) { forall t :: t in s ==> d <= t.ts }

  ghost predicate IsHeap(h: seq<Task>) { Heap.IsHeap(h, Deadline()) }

  lemma BeforeAgrees(s: multiset<Task>)
    ensures Heap.Agrees(Before, Deadline(), s)
  {
  }

  lemma RootIsFirst(h: seq<Task>)
    requires IsHeap(h) && h != []
    ensures Least(h[0].ts, multiset(h)) && h[0] in multiset(h)
  {
    forall t | t in multiset(h) ensures h[0].ts <= t.ts {
      var i :| 0 <= i < |h| && h[i] == t;
      Heap.RootIsLeast(h, Deadline(), i);
    }
  }

  method Push(h: seq<Task>, f: Task) returns (h': seq<Task>)
    requires IsHeap(h)
    ensures IsHeap(h') && multiset(h') == multiset(h) + multiset{f}
  {
    BeforeAgrees(multiset(h) + multiset{f});
    h' := Heap.Push(h, f, Before, Deadline());
  }

  method Pop(h: seq<Task>) returns (top: Task, h': seq<Task>)
    requires IsHeap(h) && h != []
    ensures top == h[0] && IsHeap(h') && multiset(h) == multiset(h') + multiset{top} && Least(top.ts, multiset(h'))
  {
    BeforeAgrees(multiset(h));
    RootIsFirst(h);
    top, h' := Heap.Pop(h, Before, Deadline());
  }

  // ------------------------------------------------------------ a shard's state

  /** The tasks due at a limit, and the ones that are not. */
  ghost predicate Split(tasks: multiset<Task>, limit: int, due: multiset<Task>, rest: multiset<Task>) {
    && tasks == due + rest
    && (forall t :: t in due ==> t.ts <= limit)
    && (forall t :: t in rest ==> t.ts > limit)
  }

  ghost predicate Sorted(due: seq<Task>) {
    forall i, j :: 0 <= i < j < |due| ==> due[i].ts <= due[j].ts
  }

  /** The timer is set for the first task when nothing is due, and off otherwise. */
  ghost predicate Arms(armed: Option<int>, due: seq<Task>, rest: multiset<Task>) {
    match armed
    case Some(d) => due == [] && Least(d, rest) && exists t :: t in rest && t.ts == d
    case None => due != [] || rest == multiset{}
  }

  /** Put wakes the shard when its task is first and due before the timer. */
  ghost predicate Wakes(f: Task, tasks: multiset<Task>, armed: Option<int>) {
    Least(f.ts, tasks) && (armed.None? || f.ts < armed.value)
  }

  /** The tasks taken so far are due and sorted, and none that is left comes before them. */
  ghost predicate Taking(tasks: multiset<Task>, limit: int, due: seq<Task>, rest: multiset<Task>) {
    && tasks == multiset(due) + rest && Sorted(due)
    && forall i :: 0 <= i < |due| ==> due[i].ts <= limit && Least(due[i].ts, rest)
  }

  lemma TakingNone(tasks: multiset<Task>, limit: int)
    ensures Taking(tasks, limit, [], tasks)
  {
  }

  lemma TakingNext(tasks: multiset<Task>, limit: int, due: seq<Task>, before: multiset<Task>, t: Task, rest: multiset<Task>)
    requires Taking(tasks, limit, due, before) && t.ts <= limit && before == rest + multiset{t} && Least(t.ts, rest)
    ensures Taking(tasks, limit, due + [t], rest)
  {
    assert t in before && forall x :: x in rest ==> x in before;
  }

  lemma TakenAll(tasks: multiset<Task>, limit: int, due: seq<Task>, rest: multiset<Task>)
    requires Taking(tasks, limit, due, rest) && (rest == multiset{} || exists d :: d > limit && Least(d, rest))
    ensures Split(tasks, limit, multiset(due), rest) && Sorted(due)
  {
    forall t | t in multiset(due) ensures t.ts <= limit { var i :| 0 <= i < |due| && due[i] == t; }
  }

  /** Takes tasks off the heap while the first one is due. */
  method TakeDue(tasks: seq<Task>, limit: int) returns (due: seq<Task>, h: seq<Task>)
    requires IsHeap(tasks)
    ensures IsHeap(h) && Split(multiset(tasks), limit, multiset(due), multiset(h)) && Sorted(due)
  {
    hide IsHeap, Taking, Split, Sorted;
    TakingNone(multiset(tasks), limit);
    due, h := [], tasks;
    while |h| > 0 && h[0].ts <= limit
      invariant IsHeap(h) && Taking(multiset(tasks), limit, due, multiset(h))
      decreases |multiset(h)|
    {
      var t;
      ghost var h0 := h;
      t, h := Pop(h);
      TakingNext(multiset(tasks), limit, due, multiset(h0), t, multiset(h));
      due := due + [t];
    }
    if |h| > 0 { RootIsFirst(h); }
    TakenAll(multiset(tasks), limit, due, multiset(h));
  }

  class Shard {
    var tasks: seq<Task>
    var armed: Option<int>

    constructor ()
      ensures IsHeap(tasks) && tasks == [] && armed == None
    {
      tasks, armed := [], None;
    }

    /** Put, while it holds the lock. */
    method Insert(f: Task) returns (wake: bool)
      requires IsHeap(tasks)
      modifies this`tasks
      ensures IsHeap(tasks) && multiset(tasks) == old(multiset(tasks)) + multiset{f}
      ensures wake <==> Wakes(f, multiset(tasks), armed)
    {
      tasks := Push(tasks, f);
      assert f in multiset(tasks);
      RootIsFirst(tasks);
      wake := tasks[0].ts == f.ts && (armed.None? || f.ts < armed.value);
    }

    /** One round of run, while it holds the lock: takes what is due within the
        slack and sets the timer when nothing is. */
    method Collect(now: int) returns (due: seq<Task>)
      requires IsHeap(tasks)
      modifies this
      ensures IsHeap(tasks) && Split(old(multiset(tasks)), now + SLACK, multiset(due), multiset(tasks)) && Sorted(due)
      ensures Arms(armed, due, multiset(tasks))
    {
      var h;
      due, h := TakeDue(tasks, now + SLACK);
      tasks := h;
      armed := None;
      if |h| > 0 { RootIsFirst(h); }
      if |due| == 0 && |tasks| > 0 {
        armed := Some(tasks[0].ts);
      }
    }
  }

  // ------------------------------------------- every interleaving of Put and run

  /** Where the shard's goroutine is: about to take the lock, running what it took,
      waiting for the timer or a wake-up, or gone. */
  datatype Pc = Top | Running(due: seq<Task>) | Parked | Gone

  /** `wakers` counts the Puts that released the lock and have yet to send their
      wake-up; `token` is the one-place wake channel.  `put` and `ran` are history:
      everything ever put, and everything run with the time it ran. */
  datatype Sched = Sched(tasks: multiset<Task>, armed: Option<int>, token: bool, wakers: nat, pc: Pc, now: int,
                         put: multiset<Task>, ran: seq<(Task, int)>)

  ghost predicate IsPut(s: Sched, s': Sched, f: Task) {
    var tasks := s.tasks + multiset{f};
    s' == s.(tasks := tasks, put := s.put + multiset{f}, wakers := if Wakes(f, tasks, s.armed) then s.wakers + 1 else s.wakers)
  }

  ghost predicate IsCollect(s: Sched, s': Sched) {
    && s.pc.Top?
    && (s'.pc.Parked? || s'.pc.Running?)
    && var due := if s'.pc.Parked? then [] else s'.pc.due;
       && (s'.pc.Parked? <==> due == [])
       && Split(s.tasks, s.now + SLACK, multiset(due), s'.tasks) && Sorted(due) && Arms(s'.armed, due, s'.tasks)
       && s' == s.(tasks := s'.tasks, armed := s'.armed, pc := s'.pc)
  }

  ghost predicate Fires(s: Sched) { s.armed.Some? && s.now >= s.armed.value }

  /** One atomic step of the shard, of a Put or of the clock. */
  ghost predicate Step(s: Sched, s': Sched) {
    || (exists f :: IsPut(s, s', f))
    || (s.wakers > 0 && s' == s.(wakers := s.wakers - 1, token := true))
    || IsCollect(s, s')
    || (s.pc.Running? && s.pc.due != [] && s' == s.(pc := Running(s.pc.due[1..]), ran := s.ran + [(s.pc.due[0], s.now)]))
    || (s.pc == Running([]) && s' == s.(pc := Top))
    || (s.pc.Parked? && Fires(s) && s' == s.(pc := Top))
    || (s.pc.Parked? && s.token && s' == s.(pc := Top, token := false))
    || (s.pc.Parked? && s' == s.(pc := Gone))
    || (s'.now >= s.now && s' == s.(now := s'.now))
  }

  function Due(pc: Pc): seq<Task> { if pc.Running? then pc.due else [] }

  function Ran(ran: seq<(Task, int)>): multiset<Task> {
    if ran == [] then multiset{} else Ran(ran[..|ran|-1]) + multiset{ran[|ran|-1].0}
  }

  /** Nothing runs more than the slack before its deadline. */
  ghost predicate InTime(s: Sched) {
    && (forall t :: t in multiset(Due(s.pc)) ==> t.ts <= s.now + SLACK)
    && (forall i :: 0 <= i < |s.ran| ==> s.ran[i].1 >= s.ran[i].0.ts - SLACK)
  }

  /** A parked shard with tasks has a wake-up coming or a timer early enough. */
  ghost predicate Awake(s: Sched) {
    s.pc.Parked? && s.tasks != multiset{} ==>
      s.token || s.wakers > 0 || (s.armed.Some? && Least(s.armed.value, s.tasks))
  }

  ghost predicate Safe(s: Sched) {
    s.put == s.tasks + multiset(Due(s.pc)) + Ran(s.ran) && InTime(s) && Sorted(Due(s.pc)) && Awake(s)
  }

  lemma RanAppend(ran: seq<(Task, int)>, t: Task, at: int)
    ensures Ran(ran + [(t, at)]) == Ran(ran) + multiset{t}
  {
    assert (ran + [(t, at)])[..|ran|] == ran;
  }

  lemma TakeFirst(due: seq<Task>)
    requires due != []
    ensures multiset(due) == multiset{due[0]} + multiset(due[1..])
  {
    assert due == [due[0]] + due[1..];
  }

  lemma PutSafe(s: Sched, s': Sched, f: Task)
    requires Safe(s) && IsPut(s, s', f)
    ensures Safe(s')
  {
    if s.pc.Parked? && !(s.token || s.wakers > 0) {
      if s.tasks == multiset{} { assert s'.tasks == multiset{f}; }
      if s.armed.Some? && s.tasks != multiset{} && f.ts < s.armed.value { assert Least(f.ts, s'.tasks); }
    }
  }

  lemma CollectSafe(s: Sched, s': Sched)
    requires Safe(s) && IsCollect(s, s')
    ensures Safe(s')
  {
    assert multiset(Due(s.pc)) == multiset{};
  }

  lemma ExecuteSafe(s: Sched, s': Sched)
    requires Safe(s) && s.pc.Running? && s.pc.due != []
    requires s' == s.(pc := Running(s.pc.due[1..]), ran := s.ran + [(s.pc.due[0], s.now)])
    ensures Safe(s')
  {
    hide Ran, Sorted, InTime, Least;
    RanAppend(s.ran, s.pc.due[0], s.now);
    TakeFirst(s.pc.due);
    SortedRest(s.pc.due);
    ExecuteInTime(s, s');
  }

  lemma SortedRest(due: seq<Task>)
    requires due != [] && Sorted(due)
    ensures Sorted(due[1..])
  {
  }

  lemma ExecuteInTime(s: Sched, s': Sched)
    requires InTime(s) && s.pc.Running? && s.pc.due != []
    requires s' == s.(pc := Running(s.pc.due[1..]), ran := s.ran + [(s.pc.due[0], s.now)])
    ensures InTime(s')
  {
    hide SLACK;
    assert s.pc.due[0] in multiset(s.pc.due);
    forall t | t in multiset(s.pc.due[1..]) ensures t in multiset(s.pc.due) { var i :| 0 <= i < |s.pc.due[1..]| && s.pc.due[1..][i] == t; }
  }

  lemma StepSafe(s: Sched, s': Sched)
    requires Safe(s) && Step(s, s')
    ensures Safe(s')
  {
    if f :| IsPut(s, s', f) { PutSafe(s, s', f); }
    else if IsCollect(s, s') { CollectSafe(s, s'); }
    else if s.pc.Running? && s.pc.due != [] && s'.ran != s.ran { ExecuteSafe(s, s'); }
  }

  ghost predicate IsRun(ss: seq<Sched>) {
    |ss| > 0 && forall i :: 0 <= i < |ss| - 1 ==> Step(ss[i], ss[i + 1])
  }

  function Idle(now: int): Sched { Sched(multiset{}, None, false, 0, Top, now, multiset{}, []) }

  lemma {:induction false} RunsStaySafe(ss: seq<Sched>, now: int, n: nat)
    requires IsRun(ss) && ss[0] == Idle(now) && n < |ss|
    ensures Safe(ss[n])
  {
    hide Safe, Step;
    if n > 0 {
      RunsStaySafe(ss, now, n - 1);
      StepSafe(ss[n - 1], ss[n]);
    } else {
      IdleSafe(now);
    }
  }

  lemma IdleSafe(now: int)
    ensures Safe(Idle(now))
  {
  }

  /** Scheduler safety, in every interleaving of Puts with the shard: what was put has
      run, is about to run in order of its deadlines, or waits, so each task runs at most
      as often as it was put and none is lost; nothing runs more than the slack early; and
      a parked shard that holds tasks has a wake-up coming or a timer set no later than
      its first deadline. */
  lemma SchedulerSafety(ss: seq<Sched>, now: int, n: nat)
    requires IsRun(ss) && ss[0] == Idle(now) && n < |ss|
    ensures Ran(ss[n].ran) <= ss[n].put == ss[n].tasks + multiset(Due(ss[n].pc)) + Ran(ss[n].ran) && Sorted(Due(ss[n].pc))
    ensures forall i :: 0 <= i < |ss[n].ran| ==> ss[n].ran[i].1 >= ss[n].ran[i].0.ts - SLACK
    ensures Awake(ss[n])
  {
    hide Step;
    RunsStaySafe(ss, now, n);
  }

  /** A task whose deadline has come never waits for good: the shard is on its way
      to it, or one of its wake-ups, its timer or a Put's send, can happen now. */
  lemma DueTaskIsServed(ss: seq<Sched>, now: int, n: nat, t: Task)
    requires IsRun(ss) && ss[0] == Idle(now) && n < |ss| && t in ss[n].tasks && t.ts <= ss[n].now
    ensures var s := ss[n];
            s.pc.Gone? || !s.pc.Parked? || s.token || s.wakers > 0 || Fires(s)
  {
    hide Step;
    RunsStaySafe(ss, now, n);
  }
}
