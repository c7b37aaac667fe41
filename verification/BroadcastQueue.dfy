/**
 The ARC broadcast queue (`SingleArcBroadcaster` in `broadcaster.ts`): a bounded priority
 queue, a slot count, per-task retries and a circuit breaker with a resume timer. Upstream
 answers, the clock and the timer are the environment's events.
 */
module BroadcastQueue {
  import opened Options

  datatype Config = Config(
    maxConcurrent: int, maxQueueDepth: int, retryAttempts: nat,
    failureThreshold: int, windowMs: int, openMs: nat)

  datatype Task = Task(seqNo: nat, priority: int, retries: bool)

  /** Waiting for the upstream's answer, sleeping before a retry, or settled and about to be resolved. */
  datatype Phase = Calling | Sleeping | Settled

  /** A task holding a slot. */
  datatype Slot = Slot(task: Task, attempt: nat, phase: Phase)

  datatype Entry =
    | Dispatched(seqNo: nat, at: int)
    | Upstream(seqNo: nat, at: int)
    | Resolved(seqNo: nat)
    | FinalFailure(task: Task, at: int)   // transient, and the task's last attempt
    | Succeeded(at: int)
    | BreakerOpened(at: int, until: int)

  datatype Arc = Arc(
    queue: seq<Task>, slots: map<nat, Slot>, inFlight: int, nextSeq: nat,
    openUntil: int, failures: seq<int>, timer: Option<int>, log: seq<Entry>)

  const IDLE := Arc([], map[], 0, 0, 0, [], None, [])

  predicate Before(a: Task, b: Task) {
    a.priority < b.priority || (a.priority == b.priority && a.seqNo < b.seqNo)
  }

  /** `push` followed by a sort on (priority, seq). */
  function Enqueue(queue: seq<Task>, t: Task): seq<Task> {
    if queue == [] then [t]
    else if Before(t, queue[0]) then [t] + queue
    else [queue[0]] + Enqueue(queue[1..], t)
  }

  predicate IsOpen(s: Arc, now: int) { s.openUntil > now }

  function DispatchOne(s: Arc, now: int): Arc
    requires s.queue != []
  {
    var t := s.queue[0];
    s.(queue := s.queue[1..], inFlight := s.inFlight + 1, slots := s.slots[t.seqNo := Slot(t, 0, Calling)],
       log := s.log + [Dispatched(t.seqNo, now), Upstream(t.seqNo, now)])
  }

  function Fill(c: Config, s: Arc, now: int): Arc
    decreases |s.queue|
  {
    if s.inFlight < c.maxConcurrent && s.queue != [] then Fill(c, DispatchOne(s, now), now) else s
  }

  function Schedule(c: Config, s: Arc, now: int): Arc { if IsOpen(s, now) then s else Fill(c, s, now) }

  datatype Admission = Accepted(seqNo: nat) | CircuitOpen | QueueSaturated

  function Broadcast(c: Config, s: Arc, now: int, priority: int, retries: bool): (Arc, Admission) {
    if IsOpen(s, now) then (s, CircuitOpen)
    else if |s.queue| >= c.maxQueueDepth then (s, QueueSaturated)
    else
      var t := Task(s.nextSeq, priority, retries);
      (Schedule(c, s.(queue := Enqueue(s.queue, t), nextSeq := s.nextSeq + 1), now), Accepted(s.nextSeq))
  }

  function Prune(failures: seq<int>, since: int): seq<int> {
    if failures == [] then []
    else (if failures[0] >= since then [failures[0]] else []) + Prune(failures[1..], since)
  }

  function Logged(s: Arc, e: Entry): Arc { s.(log := s.log + [e]) }

  function NoteTransient(c: Config, s: Arc, now: int, task: Task): Arc {
    var failed := FailureNoted(c, s, now, task);
    if |failed.failures| >= c.failureThreshold && now >= s.openUntil then OpenBreaker(failed, now, now + c.openMs)
    else failed
  }

  function FailureNoted(c: Config, s: Arc, now: int, task: Task): Arc {
    Logged(s.(failures := Prune(s.failures + [now], now - c.windowMs)), FinalFailure(task, now))
  }

  function OpenBreaker(s: Arc, now: int, until: int): Arc {
    Logged(s.(openUntil := until, timer := Some(until)), BreakerOpened(now, until))
  }

  /** The task's promise is resolved, its slot freed, and the queue looked at again. */
  function Finish(c: Config, s: Arc, now: int, id: nat): Arc {
    Schedule(c, Freed(s, id), now)
  }

  function Freed(s: Arc, id: nat): Arc {
    s.(slots := s.slots - {id}, inFlight := if s.inFlight > 0 then s.inFlight - 1 else 0,
       log := s.log + [Resolved(id)])
  }

  datatype Outcome = Seen | Transient | OtherFailure

  function TotalAttempts(c: Config, t: Task): nat { 1 + if t.retries then c.retryAttempts else 0 }

  /**
   The answer is noted: a success clears the failures, a final failure may open the breaker. The slot
   is not freed here; that happens once the awaiting task goes on.
   */
  function Answer(c: Config, s: Arc, now: int, id: nat, outcome: Outcome): Arc
    requires id in s.slots
  {
    var slot := s.slots[id];
    if outcome == Transient && slot.attempt + 1 < TotalAttempts(c, slot.task) then
      s.(slots := s.slots[id := slot.(attempt := slot.attempt + 1, phase := Sleeping)])
    else Noted(c, s, now, outcome, slot.task).(slots := s.slots[id := slot.(phase := Settled)])
  }

  function Noted(c: Config, s: Arc, now: int, outcome: Outcome, task: Task): Arc {
    match outcome
    case Seen => Logged(s.(failures := []), Succeeded(now))
    case Transient => NoteTransient(c, s, now, task)
    case OtherFailure => s
  }

  datatype Event =
    | Submit(priority: int, retries: bool)
    | Answered(id: nat, outcome: Outcome)
    | RetryWakes(id: nat)
    | Settles(id: nat)
    | TimerFires
    | StateRead

  datatype Timed = Timed(at: int, event: Event)

  predicate Enabled(s: Arc, e: Timed) {
    match e.event
    case Submit(_, _) => true
    case Answered(id, _) => id in s.slots && s.slots[id].phase == Calling
    case RetryWakes(id) => id in s.slots && s.slots[id].phase == Sleeping
    case Settles(id) => id in s.slots && s.slots[id].phase == Settled
    case TimerFires => s.timer.Some? && s.timer.value <= e.at
    case StateRead => true
  }

  function Step(c: Config, s: Arc, e: Timed): Arc
    requires Enabled(s, e)
  {
    match e.event
    case Submit(priority, retries) => Broadcast(c, s, e.at, priority, retries).0
    case Answered(id, outcome) => Answer(c, s, e.at, id, outcome)
    case RetryWakes(id) =>
      s.(slots := s.slots[id := s.slots[id].(phase := Calling)], log := s.log + [Upstream(id, e.at)])
    case Settles(id) => Finish(c, s, e.at, id)
    case TimerFires => Schedule(c, s.(timer := None), e.at)
    case StateRead => s.(failures := Prune(s.failures, e.at - c.windowMs))
  }

  ghost predicate Runs(c: Config, s: Arc, clock: int, events: seq<Timed>)
    decreases |events|
  {
    events != [] ==> clock <= events[0].at && Enabled(s, events[0])
                     && Runs(c, Step(c, s, events[0]), events[0].at, events[1..])
  }

  function After(c: Config, s: Arc, clock: int, events: seq<Timed>): (Arc, int)
    requires Runs(c, s, clock, events)
    decreases |events|
  {
    if events == [] then (s, clock) else After(c, Step(c, s, events[0]), events[0].at, events[1..])
  }

  // ---------- the class ----------

  class SingleArcBroadcaster {
    const config: Config
    var queue: seq<Task>
    var slots: map<nat, Slot>
    var inFlight: int
    var seqNo: nat
    var breakerOpenUntil: int
    var transientFailureTimes: seq<int>
    var breakerResumeTimer: Option<int>
    ghost var log: seq<Entry>

    ghost function State(): Arc
      reads this
    {
      Arc(queue, slots, inFlight, seqNo, breakerOpenUntil, transientFailureTimes, breakerResumeTimer, log)
    }

    constructor (config: Config)
      ensures this.config == config && State() == IDLE
    {
      this.config := config;
      queue, slots, inFlight, seqNo := [], map[], 0, 0;
      breakerOpenUntil, transientFailureTimes, breakerResumeTimer, log := 0, [], None, [];
    }

    method RunSchedule(now: int)
      modifies this
      ensures State() == Schedule(config, old(State()), now)
    {
      if breakerOpenUntil > now { return; }
      while inFlight < config.maxConcurrent && |queue| > 0
        invariant Fill(config, State(), now) == Fill(config, old(State()), now)
        decreases |queue|
      {
        var next := queue[0];
        queue := queue[1..];
        inFlight := inFlight + 1;
        slots := slots[next.seqNo := Slot(next, 0, Calling)];
        log := log + [Dispatched(next.seqNo, now), Upstream(next.seqNo, now)];
      }
    }

    method Send(now: int, priority: int, retries: bool) returns (r: Admission)
      modifies this
      ensures (State(), r) == Broadcast(config, old(State()), now, priority, retries)
    {
      if breakerOpenUntil > now { return CircuitOpen; }
      if |queue| >= config.maxQueueDepth { return QueueSaturated; }
      r := Accepted(seqNo);
      queue := Enqueue(queue, Task(seqNo, priority, retries));
      seqNo := seqNo + 1;
      RunSchedule(now);
    }

    method PruneFailures(now: int)
      modifies this`transientFailureTimes
      ensures transientFailureTimes == Prune(old(transientFailureTimes), now - config.windowMs)
    {
      var since := now - config.windowMs;
      var kept: seq<int> := [];
      var i := 0;
      assert transientFailureTimes[0..] == transientFailureTimes;
      while i < |transientFailureTimes|
        invariant 0 <= i <= |transientFailureTimes| && transientFailureTimes == old(transientFailureTimes)
        invariant kept + Prune(transientFailureTimes[i..], since) == Prune(transientFailureTimes, since)
      {
        assert transientFailureTimes[i..][1..] == transientFailureTimes[i + 1..];
        if transientFailureTimes[i] >= since { kept := kept + [transientFailureTimes[i]]; }
        i := i + 1;
      }
      transientFailureTimes := kept;
    }

    method NoteTransientFailure(now: int, ghost task: Task)
      modifies this
      ensures State() == NoteTransient(config, old(State()), now, task)
    {
      log := log + [FinalFailure(task, now)];
      transientFailureTimes := transientFailureTimes + [now];
      PruneFailures(now);
      if |transientFailureTimes| >= config.failureThreshold && now >= breakerOpenUntil {
        breakerOpenUntil := now + config.openMs;
        breakerResumeTimer := Some(breakerOpenUntil);
        log := log + [BreakerOpened(now, breakerOpenUntil)];
      }
    }

    /** One upstream answer to one slot. */
    method HandleAnswer(now: int, id: nat, outcome: Outcome)
      requires id in slots
      modifies this
      ensures State() == Answer(config, old(State()), now, id, outcome)
    {
      var slot := slots[id];
      if outcome == Seen {
        transientFailureTimes := [];
        log := log + [Succeeded(now)];
      } else if outcome == Transient && slot.attempt + 1 < TotalAttempts(config, slot.task) {
        slots := slots[id := slot.(attempt := slot.attempt + 1, phase := Sleeping)];
        return;
      } else if outcome == Transient {
        NoteTransientFailure(now, slot.task);
      }
      slots := slots[id := slot.(phase := Settled)];
    }

    /** The awaiting task goes on: its promise is resolved, its slot freed and the queue looked at. */
    method FinishTask(now: int, id: nat)
      requires id in slots
      modifies this
      ensures State() == Finish(config, old(State()), now, id)
    {
      log := log + [Resolved(id)];
      slots := slots - {id};
      inFlight := if inFlight - 1 > 0 then inFlight - 1 else 0;
      RunSchedule(now);
    }

    method ResumeTimerFires(now: int)
      modifies this
      ensures State() == Schedule(config, old(State()).(timer := None), now)
    {
      breakerResumeTimer := None;
      RunSchedule(now);
    }
  }

  // ---------- invariants ----------

  ghost predicate Sorted(queue: seq<Task>) {
    forall i, j :: 0 <= i < j < |queue| ==> Before(queue[i], queue[j])
  }

  function Ids(queue: seq<Task>): set<nat> { set t | t in queue :: t.seqNo }

  function ResolvedIds(log: seq<Entry>): set<nat> {
    set i | 0 <= i < |log| && log[i].Resolved? :: log[i].seqNo
  }

  ghost predicate ResolvedOnce(log: seq<Entry>) {
    forall i, j :: 0 <= i < j < |log| && log[i].Resolved? && log[j].Resolved? ==> log[i].seqNo != log[j].seqNo
  }

  function Cap(n: int): nat { if n < 0 then 0 else n }

  /** Every accepted task is waiting, holding a slot or resolved, and only one of these. */
  ghost predicate Conserved(s: Arc) {
    && (forall n: nat :: n < s.nextSeq <==> n in Ids(s.queue) || n in s.slots || n in ResolvedIds(s.log))
    && Ids(s.queue) !! s.slots.Keys !! ResolvedIds(s.log)
    && ResolvedOnce(s.log)
    && DistinctNumbers(s.queue)
  }

  ghost predicate DistinctNumbers(queue: seq<Task>) {
    forall i, j :: 0 <= i < j < |queue| ==> queue[i].seqNo != queue[j].seqNo
  }

  ghost predicate Bounded(c: Config, s: Arc) {
    && Sorted(s.queue)
    && |s.queue| <= Cap(c.maxQueueDepth)
    && s.inFlight == |s.slots| <= Cap(c.maxConcurrent)
  }

  /** An open breaker has its resume timer, and without a timer no task waits beside a free slot. */
  ghost predicate Resumes(c: Config, s: Arc, clock: int) {
    && (s.timer.Some? ==> s.timer.value == s.openUntil)
    && (s.timer.None? ==> s.openUntil <= clock && (s.queue == [] || s.inFlight >= c.maxConcurrent))
  }

  /** Breakers open one after the other, and nothing leaves the queue while one is open. */
  ghost predicate OpenBlocks(log: seq<Entry>, openUntil: int) {
    && (forall i :: 0 <= i < |log| && log[i].BreakerOpened? ==> log[i].until <= openUntil)
    && (forall i, j :: 0 <= i < j < |log| && log[i].BreakerOpened? && log[j].Dispatched? ==> log[i].until <= log[j].at)
  }

  lemma BlocksMore(log: seq<Entry>, e: Entry, openUntil: int, later: int)
    requires OpenBlocks(log, openUntil) && openUntil <= later
    requires e.BreakerOpened? ==> e.until <= later
    requires e.Dispatched? ==> openUntil <= e.at
    ensures OpenBlocks(log + [e], later)
  {
  }

  ghost predicate Inv(c: Config, s: Arc, clock: int) {
    && Conserved(s) && Bounded(c, s) && Resumes(c, s, clock) && OpenBlocks(s.log, s.openUntil)
  }

  lemma {:induction false} EnqueueMembers(queue: seq<Task>, t: Task)
    ensures forall u :: u in Enqueue(queue, t) <==> u in queue || u == t
    ensures |Enqueue(queue, t)| == |queue| + 1
  {
    if queue != [] && !Before(t, queue[0]) {
      EnqueueMembers(queue[1..], t);
      assert queue == [queue[0]] + queue[1..];
    }
  }

  /** The result is the queue and the task, in order: what a sort of the extended list must give. */
  lemma {:induction false} EnqueuePermutes(queue: seq<Task>, t: Task)
    ensures multiset(Enqueue(queue, t)) == multiset(queue) + multiset{t}
  {
    if queue != [] && !Before(t, queue[0]) {
      EnqueuePermutes(queue[1..], t);
      assert queue == [queue[0]] + queue[1..];
      assert multiset(queue) == multiset{queue[0]} + multiset(queue[1..]);
      assert multiset(Enqueue(queue, t)) == multiset{queue[0]} + multiset(Enqueue(queue[1..], t));
    }
  }

  lemma {:induction false} EnqueueSorts(queue: seq<Task>, t: Task)
    requires Sorted(queue) && forall u :: u in queue ==> u.seqNo < t.seqNo
    ensures Sorted(Enqueue(queue, t)) && |Enqueue(queue, t)| == |queue| + 1
  {
    EnqueueMembers(queue, t);
    if queue == [] {
    } else if Before(t, queue[0]) {
      forall j | 0 <= j < |queue| ensures Before(t, queue[j]) {
        if j > 0 { assert Before(queue[0], queue[j]); }
      }
      SortedCons(t, queue);
    } else {
      var head, tail := queue[0], queue[1..];
      EnqueueSorts(tail, t);
      EnqueueMembers(tail, t);
      var rest := Enqueue(tail, t);
      assert head in queue && Before(head, t);
      forall j | 0 <= j < |rest| ensures Before(head, rest[j]) {
        assert rest[j] in rest;
        if rest[j] in tail {
          var k :| 0 <= k < |tail| && tail[k] == rest[j];
          assert queue[k + 1] == rest[j];
        }
      }
      SortedCons(head, rest);
    }
  }

  lemma SortedCons(head: Task, rest: seq<Task>)
    requires Sorted(rest) && forall j :: 0 <= j < |rest| ==> Before(head, rest[j])
    ensures Sorted([head] + rest)
  {
  }

  lemma MoreLog(log: seq<Entry>, e: Entry)
    ensures ResolvedIds(log + [e]) == ResolvedIds(log) + (if e.Resolved? then {e.seqNo} else {})
  {
    var more := log + [e];
    forall n | n in ResolvedIds(log) ensures n in ResolvedIds(more) {
      var i :| 0 <= i < |log| && log[i].Resolved? && log[i].seqNo == n;
      assert more[i] == log[i];
    }
    if e.Resolved? { assert more[|log|] == e; }
  }

  /** What `Fill` needs and keeps: everything but the promise that it leaves nobody waiting. */
  ghost predicate Mid(c: Config, s: Arc) { Conserved(s) && Bounded(c, s) && OpenBlocks(s.log, s.openUntil) }

  lemma DispatchConserves(s: Arc, now: int)
    requires Conserved(s) && s.queue != []
    ensures Conserved(DispatchOne(s, now)) && s.queue[0].seqNo !in s.slots
  {
    var t, rest, s1 := s.queue[0], s.queue[1..], DispatchOne(s, now);
    var log1 := s.log + [Dispatched(t.seqNo, now)];
    MoreLog(s.log, Dispatched(t.seqNo, now));
    MoreLog(log1, Upstream(t.seqNo, now));
    assert s1.log == log1 + [Upstream(t.seqNo, now)];
    assert s.queue == [t] + rest;
    assert Ids(s.queue) == {t.seqNo} + Ids(rest);
    forall u | u in rest ensures u.seqNo != t.seqNo {
      var j :| 0 <= j < |rest| && rest[j] == u;
      assert s.queue[j + 1] == u;
    }
  }

  lemma DispatchKeeps(c: Config, s: Arc, now: int)
    requires Mid(c, s) && s.queue != [] && s.inFlight < c.maxConcurrent && s.openUntil <= now
    ensures Mid(c, DispatchOne(s, now))
  {
    DispatchConserves(s, now);
    DispatchBlocks(s, now);
    DispatchBounded(c, s, now);
  }

  lemma DispatchBounded(c: Config, s: Arc, now: int)
    requires Bounded(c, s) && s.queue != [] && s.inFlight < c.maxConcurrent && s.queue[0].seqNo !in s.slots
    ensures Bounded(c, DispatchOne(s, now))
  {
    assert s.slots[s.queue[0].seqNo := Slot(s.queue[0], 0, Calling)].Keys == s.slots.Keys + {s.queue[0].seqNo};
  }

  lemma DispatchBlocks(s: Arc, now: int)
    requires OpenBlocks(s.log, s.openUntil) && s.queue != [] && s.openUntil <= now
    ensures OpenBlocks(DispatchOne(s, now).log, s.openUntil)
  {
    var n := s.queue[0].seqNo;
    BlocksMore(s.log, Dispatched(n, now), s.openUntil, s.openUntil);
    BlocksMore(s.log + [Dispatched(n, now)], Upstream(n, now), s.openUntil, s.openUntil);
    assert DispatchOne(s, now).log == s.log + [Dispatched(n, now)] + [Upstream(n, now)];
  }

  lemma {:induction false} FillKeeps(c: Config, s: Arc, now: int)
    requires Mid(c, s) && s.openUntil <= now
    ensures var f := Fill(c, s, now);
      && Mid(c, f) && (f.queue == [] || f.inFlight >= c.maxConcurrent)
      && f.openUntil == s.openUntil && f.timer == s.timer && f.nextSeq == s.nextSeq && f.failures == s.failures
    decreases |s.queue|
  {
    if s.inFlight < c.maxConcurrent && s.queue != [] {
      DispatchKeeps(c, s, now);
      FillKeeps(c, DispatchOne(s, now), now);
    }
  }

  lemma ScheduleKeeps(c: Config, s: Arc, now: int)
    requires Mid(c, s) && TimerFits(s, now)
    ensures Inv(c, Schedule(c, s, now), now)
  {
    if !IsOpen(s, now) { FillKeeps(c, s, now); }
  }

  lemma AcceptedKeeps(c: Config, s: Arc, now: int, t: Task)
    requires Inv(c, s, now) && t.seqNo == s.nextSeq && s.openUntil <= now && |s.queue| < c.maxQueueDepth
    ensures Inv(c, Schedule(c, s.(queue := Enqueue(s.queue, t), nextSeq := s.nextSeq + 1), now), now)
  {
    forall u | u in s.queue ensures u.seqNo < t.seqNo { assert u.seqNo in Ids(s.queue); }
    EnqueueSorts(s.queue, t);
    EnqueueConserves(s, t);
    ScheduleKeeps(c, s.(queue := Enqueue(s.queue, t), nextSeq := s.nextSeq + 1), now);
  }

  lemma AcceptedIs(c: Config, s: Arc, now: int, priority: int, retries: bool)
    requires s.openUntil <= now && |s.queue| < c.maxQueueDepth
    ensures Broadcast(c, s, now, priority, retries).0
         == Schedule(c, s.(queue := Enqueue(s.queue, Task(s.nextSeq, priority, retries)),
                           nextSeq := s.nextSeq + 1), now)
  {
  }

  lemma SubmitKeeps(c: Config, s: Arc, now: int, priority: int, retries: bool)
    requires Inv(c, s, now)
    ensures Inv(c, Broadcast(c, s, now, priority, retries).0, now)
  {
    var s' := Broadcast(c, s, now, priority, retries).0;
    if IsOpen(s, now) || |s.queue| >= c.maxQueueDepth {
      assert s' == s;
    } else {
      var t := Task(s.nextSeq, priority, retries);
      AcceptedKeeps(c, s, now, t);
      AcceptedIs(c, s, now, priority, retries);
    }
  }

  lemma EnqueueConserves(s: Arc, t: Task)
    requires Conserved(s) && t.seqNo == s.nextSeq
    ensures Conserved(s.(queue := Enqueue(s.queue, t), nextSeq := s.nextSeq + 1))
  {
    forall u | u in s.queue ensures u.seqNo < t.seqNo { assert u.seqNo in Ids(s.queue); }
    EnqueueMembers(s.queue, t);
    EnqueueDistinct(s.queue, t);
    var queue := Enqueue(s.queue, t);
    assert t in queue;
    assert Ids(queue) == Ids(s.queue) + {t.seqNo};
  }

  lemma {:induction false} EnqueueDistinct(queue: seq<Task>, t: Task)
    requires DistinctNumbers(queue) && forall u :: u in queue ==> u.seqNo < t.seqNo
    ensures DistinctNumbers(Enqueue(queue, t))
  {
    if queue != [] && !Before(t, queue[0]) {
      var head, tail := queue[0], queue[1..];
      EnqueueDistinct(tail, t);
      EnqueueMembers(tail, t);
      var rest := Enqueue(tail, t);
      forall j | 0 <= j < |rest| ensures rest[j].seqNo != head.seqNo {
        assert rest[j] in rest && head in queue;
        if rest[j] in tail {
          var k :| 0 <= k < |tail| && tail[k] == rest[j];
          assert queue[k + 1] == rest[j];
        }
      }
      var q := [head] + rest;
      forall i, j | 0 <= i < j < |q| ensures q[i].seqNo != q[j].seqNo {
        if i > 0 { assert q[i] == rest[i - 1]; }
        assert q[j] == rest[j - 1];
      }
    } else if queue != [] {
      var q := [t] + queue;
      forall i, j | 0 <= i < j < |q| ensures q[i].seqNo != q[j].seqNo {
        assert q[j] == queue[j - 1] && queue[j - 1] in queue;
        if i > 0 { assert q[i] == queue[i - 1]; }
      }
    }
  }

  lemma ResolveConserves(s: Arc, id: nat)
    requires Conserved(s) && id in s.slots
    ensures Conserved(s.(slots := s.slots - {id}, log := s.log + [Resolved(id)]))
  {
    MoreLog(s.log, Resolved(id));
    assert (s.slots - {id}).Keys == s.slots.Keys - {id};
    forall i | 0 <= i < |s.log| && s.log[i].Resolved? ensures s.log[i].seqNo != id {
      assert s.log[i].seqNo in ResolvedIds(s.log);
    }
  }

  /** An entry that is neither a resolution nor a dispatch leaves the books as they are. */
  lemma LogConserves(s: Arc, e: Entry)
    requires Conserved(s) && !e.Resolved?
    ensures Conserved(s.(log := s.log + [e]))
  {
    MoreLog(s.log, e);
  }

  ghost predicate TimerFits(s: Arc, now: int) {
    (s.timer.Some? ==> s.timer.value == s.openUntil) && (s.timer.None? ==> s.openUntil <= now)
  }

  lemma FinishKeeps(c: Config, s: Arc, now: int, id: nat)
    requires Mid(c, s) && id in s.slots && TimerFits(s, now)
    ensures Inv(c, Finish(c, s, now, id), now)
  {
    var s1 := Freed(s, id);
    FreedKeeps(c, s, id);
    ScheduleKeeps(c, s1, now);
  }

  lemma FreedKeeps(c: Config, s: Arc, id: nat)
    requires Mid(c, s) && id in s.slots
    ensures Mid(c, Freed(s, id)) && Freed(s, id).timer == s.timer
  {
    ResolveConserves(s, id);
    BlocksMore(s.log, Resolved(id), s.openUntil, s.openUntil);
    assert (s.slots - {id}).Keys == s.slots.Keys - {id};
  }

  lemma OpeningKeeps(c: Config, s: Arc, now: int)
    requires Inv(c, s, now) && s.openUntil <= now
    ensures Inv(c, OpenBreaker(s, now, now + c.openMs), now)
  {
    var e := BreakerOpened(now, now + c.openMs);
    LogConserves(s, e);
    BlocksMore(s.log, e, s.openUntil, now + c.openMs);
  }

  /** Answers leave entries that neither resolve nor dispatch nor open anything. */
  lemma LoggedKeeps(c: Config, s: Arc, now: int, failures: seq<int>, e: Entry)
    requires Inv(c, s, now) && !e.Resolved? && !e.Dispatched? && !e.BreakerOpened?
    ensures Inv(c, Logged(s.(failures := failures), e), now)
  {
    LogConserves(s, e);
    BlocksMore(s.log, e, s.openUntil, s.openUntil);
  }

  lemma FailureKeeps(c: Config, s: Arc, now: int, task: Task)
    requires Inv(c, s, now)
    ensures Inv(c, FailureNoted(c, s, now, task), now)
  {
    LoggedKeeps(c, s, now, FailureNoted(c, s, now, task).failures, FinalFailure(task, now));
  }

  lemma NoteTransientKeeps(c: Config, s: Arc, now: int, task: Task)
    requires Inv(c, s, now)
    ensures Inv(c, NoteTransient(c, s, now, task), now)
  {
    var failed := FailureNoted(c, s, now, task);
    FailureKeeps(c, s, now, task);
    if |failed.failures| >= c.failureThreshold && now >= s.openUntil {
      OpeningKeeps(c, failed, now);
      assert NoteTransient(c, s, now, task) == OpenBreaker(failed, now, now + c.openMs);
    } else {
      assert NoteTransient(c, s, now, task) == failed;
    }
  }

  /** A slot's own progress leaves the books as they are. */
  lemma SlotKeeps(c: Config, s: Arc, now: int, id: nat, slot: Slot)
    requires Inv(c, s, now) && id in s.slots
    ensures Inv(c, s.(slots := s.slots[id := slot]), now)
  {
    assert s.slots[id := slot].Keys == s.slots.Keys;
  }

  lemma NotedKeeps(c: Config, s: Arc, now: int, outcome: Outcome, task: Task)
    requires Inv(c, s, now)
    ensures Inv(c, Noted(c, s, now, outcome, task), now)
  {
    match outcome
    case Seen => LoggedKeeps(c, s, now, [], Succeeded(now));
    case Transient => NoteTransientKeeps(c, s, now, task);
    case OtherFailure =>
  }

  lemma NotedSlots(c: Config, s: Arc, now: int, outcome: Outcome, task: Task)
    ensures Noted(c, s, now, outcome, task).slots == s.slots
  {
  }

  lemma AnswerKeeps(c: Config, s: Arc, now: int, id: nat, outcome: Outcome)
    requires Inv(c, s, now) && id in s.slots
    ensures Inv(c, Answer(c, s, now, id, outcome), now)
  {
    var slot := s.slots[id];
    if outcome == Transient && slot.attempt + 1 < TotalAttempts(c, slot.task) {
      SlotKeeps(c, s, now, id, slot.(attempt := slot.attempt + 1, phase := Sleeping));
    } else {
      NotedKeeps(c, s, now, outcome, slot.task);
      NotedSlots(c, s, now, outcome, slot.task);
      SlotKeeps(c, Noted(c, s, now, outcome, slot.task), now, id, slot.(phase := Settled));
    }
  }

  lemma WakeKeeps(c: Config, s: Arc, now: int, id: nat)
    requires Inv(c, s, now) && id in s.slots
    ensures Inv(c, s.(slots := s.slots[id := s.slots[id].(phase := Calling)], log := s.log + [Upstream(id, now)]), now)
  {
    LogConserves(s, Upstream(id, now));
    BlocksMore(s.log, Upstream(id, now), s.openUntil, s.openUntil);
    assert s.slots[id := s.slots[id].(phase := Calling)].Keys == s.slots.Keys;
  }

  lemma TimePasses(c: Config, s: Arc, clock: int, now: int)
    requires Inv(c, s, clock) && clock <= now
    ensures Inv(c, s, now)
  {
  }

  lemma StepKeeps(c: Config, s: Arc, clock: int, e: Timed)
    requires Inv(c, s, clock) && clock <= e.at && Enabled(s, e)
    ensures Inv(c, Step(c, s, e), e.at)
  {
    TimePasses(c, s, clock, e.at);
    match e.event
    case Submit(priority, retries) => SubmitKeeps(c, s, e.at, priority, retries);
    case Answered(id, outcome) => AnswerKeeps(c, s, e.at, id, outcome);
    case RetryWakes(id) => WakeKeeps(c, s, e.at, id);
    case Settles(id) => FinishKeeps(c, s, e.at, id);
    case TimerFires => ScheduleKeeps(c, s.(timer := None), e.at);
    case StateRead => assert Inv(c, s.(failures := Prune(s.failures, e.at - c.windowMs)), e.at);
  }

  /** In every run: sorted and bounded queue, bounded slots, conserved tasks, and somebody to resume it. */
  lemma {:induction false} RunKeeps(c: Config, s: Arc, clock: int, events: seq<Timed>)
    requires Inv(c, s, clock) && Runs(c, s, clock, events)
    ensures var (s', clock') := After(c, s, clock, events); Inv(c, s', clock')
    decreases |events|
  {
    if events != [] {
      StepKeeps(c, s, clock, events[0]);
      RunKeeps(c, Step(c, s, events[0]), events[0].at, events[1..]);
    }
  }

  /** The guarantees read off the invariant, for runs of a fresh broadcaster. */
  lemma QueueIsSafe(c: Config, clock: int, events: seq<Timed>)
    requires clock >= 0 && Runs(c, IDLE, clock, events)
    ensures var (s, now) := After(c, IDLE, clock, events);
      && Sorted(s.queue) && |s.queue| <= Cap(c.maxQueueDepth)
      && s.inFlight == |s.slots| <= Cap(c.maxConcurrent)
      && ResolvedOnce(s.log)
      && (s.queue == [] && s.slots == map[] ==> forall n: nat :: n < s.nextSeq <==> n in ResolvedIds(s.log))
      && (forall i, j :: 0 <= i < j < |s.log| && s.log[i].BreakerOpened? && s.log[j].Dispatched? ==>
            s.log[i].until <= s.log[j].at)
      && (s.queue != [] && s.inFlight < c.maxConcurrent ==> s.timer == Some(s.openUntil))
  {
    RunKeeps(c, IDLE, clock, events);
  }

  // ---------- order ----------

  function DispatchLog(ts: seq<Task>, now: int): seq<Entry> {
    if ts == [] then [] else [Dispatched(ts[0].seqNo, now), Upstream(ts[0].seqNo, now)] + DispatchLog(ts[1..], now)
  }

  /** Tasks leave the queue from its front, in its order, and nothing else is logged. */
  lemma {:induction false} FillTakesFront(c: Config, s: Arc, now: int)
    ensures var f := Fill(c, s, now); var k := |s.queue| - |f.queue|;
      && 0 <= k <= |s.queue| && f.queue == s.queue[k..]
      && f.log == s.log + DispatchLog(s.queue[..k], now)
    decreases |s.queue|
  {
    if s.inFlight < c.maxConcurrent && s.queue != [] {
      var s1, f := DispatchOne(s, now), Fill(c, s, now);
      FillTakesFront(c, s1, now);
      var k := |s.queue| - |f.queue|;
      var front, rest := s.queue[..k], s1.queue[..k - 1];
      assert front[1..] == rest;
      assert s1.queue[k - 1..] == s.queue[k..];
      assert f == Fill(c, s1, now) && s1.queue == s.queue[1..] && front[0] == s.queue[0];
      var mine := [Dispatched(front[0].seqNo, now), Upstream(front[0].seqNo, now)];
      assert DispatchLog(front, now) == mine + DispatchLog(rest, now) && s1.log == s.log + mine;
      assert (s.log + mine) + DispatchLog(rest, now) == s.log + (mine + DispatchLog(rest, now));
    } else {
      assert s.queue[..0] == [] && s.queue[0..] == s.queue;
    }
  }

  /** So whatever is dispatched comes before whatever is left waiting. */
  lemma DispatchedBeforeWaiting(c: Config, s: Arc, now: int, a: Task, b: Task)
    requires Sorted(s.queue) && a in s.queue && a !in Schedule(c, s, now).queue && b in Schedule(c, s, now).queue
    ensures a.priority < b.priority || (a.priority == b.priority && a.seqNo < b.seqNo)
  {
    FillTakesFront(c, s, now);
    var k := |s.queue| - |Fill(c, s, now).queue|;
    assert s.queue == s.queue[..k] + s.queue[k..];
    var i :| 0 <= i < k && s.queue[..k][i] == a;
    var j :| 0 <= j < |s.queue[k..]| && s.queue[k..][j] == b;
    assert s.queue[i] == a && s.queue[k + j] == b;
  }

  // ---------- what one step logs ----------

  lemma {:induction false} DispatchLogAt(ts: seq<Task>, now: int)
    ensures |DispatchLog(ts, now)| == 2 * |ts|
    ensures forall m :: 0 <= m < |ts| ==>
              && DispatchLog(ts, now)[2 * m] == Dispatched(ts[m].seqNo, now)
              && DispatchLog(ts, now)[2 * m + 1] == Upstream(ts[m].seqNo, now)
  {
    if ts != [] {
      DispatchLogAt(ts[1..], now);
      forall m | 0 <= m < |ts|
        ensures DispatchLog(ts, now)[2 * m] == Dispatched(ts[m].seqNo, now)
        ensures DispatchLog(ts, now)[2 * m + 1] == Upstream(ts[m].seqNo, now)
      {
        if m > 0 {
          assert DispatchLog(ts[1..], now)[2 * (m - 1)] == Dispatched(ts[1..][m - 1].seqNo, now);
          assert DispatchLog(ts[1..], now)[2 * (m - 1) + 1] == Upstream(ts[1..][m - 1].seqNo, now);
        }
      }
    }
  }

  /** The state of a step just before it looks at the queue, and whether it does. */
  function Middle(c: Config, s: Arc, e: Timed): (Arc, bool)
    requires Enabled(s, e)
  {
    match e.event
    case Submit(priority, retries) =>
      if IsOpen(s, e.at) || |s.queue| >= c.maxQueueDepth then (s, false)
      else (s.(queue := Enqueue(s.queue, Task(s.nextSeq, priority, retries)), nextSeq := s.nextSeq + 1), true)
    case Settles(id) => (Freed(s, id), true)
    case TimerFires => (s.(timer := None), true)
    case _ => (Step(c, s, e), false)
  }

  ghost predicate Quiet(entries: seq<Entry>) {
    forall i :: 0 <= i < |entries| ==> !entries[i].Dispatched? && !entries[i].Upstream?
  }

  /** Before the queue is looked at, only a waking retry calls the upstream and nothing is dispatched. */
  lemma MiddleLogs(c: Config, s: Arc, e: Timed) returns (extra: seq<Entry>)
    requires Enabled(s, e)
    ensures Middle(c, s, e).0.log == s.log + extra
    ensures if e.event.RetryWakes? then extra == [Upstream(e.event.id, e.at)] else Quiet(extra)
    ensures Step(c, s, e) == if Middle(c, s, e).1 then Schedule(c, Middle(c, s, e).0, e.at) else Middle(c, s, e).0
    ensures IsOpen(s, e.at) ==> IsOpen(Middle(c, s, e).0, e.at)
  {
    extra := Middle(c, s, e).0.log[|s.log|..];
    assert s.log + [] == s.log;
    match e.event
    case Answered(id, outcome) => AnswerLogs(c, s, e.at, id, outcome);
    case _ =>
  }

  lemma AnswerLogs(c: Config, s: Arc, now: int, id: nat, outcome: Outcome)
    requires Enabled(s, Timed(now, Answered(id, outcome)))
    ensures var mid := Middle(c, s, Timed(now, Answered(id, outcome))).0;
      && mid.log == s.log + mid.log[|s.log|..] && Quiet(mid.log[|s.log|..])
  {
    assert s.log + [] == s.log;
    var failed, opening := FinalFailure(s.slots[id].task, now), BreakerOpened(now, now + c.openMs);
    assert s.log + [failed] + [opening] == s.log + [failed, opening];
  }

  /** A dispatch logs its own upstream call right after it. */
  ghost predicate OwnDispatch(log: seq<Entry>, j: nat) {
    0 < j < |log| && log[j].Upstream? && log[j - 1] == Dispatched(log[j].seqNo, log[j].at)
  }

  /** Everything a step adds to the log, in two parts: what came before the queue, and the dispatches. */
  lemma StepLogs(c: Config, s: Arc, e: Timed) returns (extra: seq<Entry>, left: seq<Task>)
    requires Enabled(s, e)
    ensures var mid := Middle(c, s, e).0;
      && mid.log == s.log + extra
      && (if e.event.RetryWakes? then extra == [Upstream(e.event.id, e.at)] else Quiet(extra))
      && mid.queue == left + Step(c, s, e).queue
      && Step(c, s, e).log == s.log + extra + DispatchLog(left, e.at)
      && (left != [] ==> !IsOpen(mid, e.at))
  {
    extra := MiddleLogs(c, s, e);
    var (mid, looks) := Middle(c, s, e);
    left := [];
    assert mid.log + [] == mid.log && [] + mid.queue == mid.queue;
    if looks && !IsOpen(mid, e.at) {
      FillTakesFront(c, mid, e.at);
      left := mid.queue[..|mid.queue| - |Fill(c, mid, e.at).queue|];
    }
  }

  lemma {:induction false} LogGrows(c: Config, s: Arc, clock: int, events: seq<Timed>)
    requires Runs(c, s, clock, events)
    ensures var log := After(c, s, clock, events).0.log; |s.log| <= |log| && log[..|s.log|] == s.log
    decreases |events|
  {
    if events != [] {
      var s1 := Step(c, s, events[0]);
      var extra, left := StepLogs(c, s, events[0]);
      LogGrows(c, s1, events[0].at, events[1..]);
      assert s1.log[..|s.log|] == s.log;
      var log := After(c, s, clock, events).0.log;
      assert log[..|s1.log|][..|s.log|] == log[..|s.log|];
    }
  }

  // ---------- retries are not held back by the breaker ----------

  /** While the breaker is open, a step calls the upstream if and only if it is a retry waking up. */
  lemma OpenUpstreamExact(c: Config, s: Arc, e: Timed)
    requires Enabled(s, e) && IsOpen(s, e.at)
    ensures var log := Step(c, s, e).log;
      (exists i :: |s.log| <= i < |log| && log[i].Upstream?) <==> e.event.RetryWakes?
  {
    var extra := MiddleLogs(c, s, e);
    var log := Step(c, s, e).log;
    assert log == s.log + extra;
    if e.event.RetryWakes? { assert log[|s.log|] == Upstream(e.event.id, e.at); }
  }

  /** Every upstream call is a dispatch's own, or was made by a retry that woke up. */
  ghost predicate Explained(log: seq<Entry>, j: nat, events: seq<Timed>) {
    && j < |log| && log[j].Upstream?
    && (OwnDispatch(log, j)
        || exists k :: 0 <= k < |events| && events[k] == Timed(log[j].at, RetryWakes(log[j].seqNo)))
  }

  lemma StepExplained(c: Config, s: Arc, e: Timed, j: nat)
    requires Enabled(s, e)
    requires var log := Step(c, s, e).log; |s.log| <= j < |log| && log[j].Upstream?
    ensures var log := Step(c, s, e).log; OwnDispatch(log, j) || e == Timed(log[j].at, RetryWakes(log[j].seqNo))
  {
    var extra, left := StepLogs(c, s, e);
    DispatchLogAt(left, e.at);
    var n := |s.log| + |extra|;
    var log := Step(c, s, e).log;
    if j < n {
      assert log[j] == extra[j - |s.log|];
    } else {
      var m := (j - n) / 2;
      assert log[j] == DispatchLog(left, e.at)[j - n];
      assert j - n == 2 * m || j - n == 2 * m + 1;
      assert log[j - 1] == DispatchLog(left, e.at)[2 * m];
    }
  }

  lemma {:induction false} RunExplained(c: Config, s: Arc, clock: int, events: seq<Timed>, j: nat)
    requires Runs(c, s, clock, events)
    requires var log := After(c, s, clock, events).0.log; |s.log| <= j < |log| && log[j].Upstream?
    ensures Explained(After(c, s, clock, events).0.log, j, events)
    decreases |events|
  {
    if events != [] {
      var e := events[0];
      var s1 := Step(c, s, e);
      var log := After(c, s, clock, events).0.log;
      LogGrows(c, s1, e.at, events[1..]);
      if j < |s1.log| {
        assert forall i :: 0 <= i < |s1.log| ==> log[i] == s1.log[i];
        StepExplained(c, s, e, j);
        if OwnDispatch(s1.log, j) { assert OwnDispatch(log, j); }
      } else {
        RunExplained(c, s1, e.at, events[1..], j);
        if !OwnDispatch(log, j) {
          var k :| 0 <= k < |events[1..]| && events[1..][k] == Timed(log[j].at, RetryWakes(log[j].seqNo));
          assert events[k + 1] == events[1..][k];
        }
      }
    }
  }

  /** Over whole runs: an upstream call made while a breaker is open is a waking retry's, never a dispatch's. */
  lemma OpenUpstreamIsRetry(c: Config, clock: int, events: seq<Timed>, i: nat, j: nat)
    requires clock >= 0 && Runs(c, IDLE, clock, events)
    requires var log := After(c, IDLE, clock, events).0.log;
      i < j < |log| && log[i].BreakerOpened? && log[j].Upstream? && log[j].at < log[i].until
    ensures var log := After(c, IDLE, clock, events).0.log;
      && !OwnDispatch(log, j)
      && exists k :: 0 <= k < |events| && events[k] == Timed(log[j].at, RetryWakes(log[j].seqNo))
  {
    QueueIsSafe(c, clock, events);
    RunExplained(c, IDLE, clock, events, j);
    var log := After(c, IDLE, clock, events).0.log;
    assert !OwnDispatch(log, j) by { assert log[j - 1].Dispatched? && i < j - 1 ==> log[i].until <= log[j - 1].at; }
  }

  // ---------- order over a whole run ----------

  ghost predicate DispatchedAt(log: seq<Entry>, i: nat, t: Task) {
    i < |log| && log[i].Dispatched? && log[i].seqNo == t.seqNo
  }

  lemma MiddleQueue(c: Config, s: Arc, clock: int, e: Timed)
    requires Inv(c, s, clock) && Enabled(s, e)
    ensures var q := Middle(c, s, e).0.queue;
      Sorted(q) && DistinctNumbers(q) && forall u :: u in s.queue ==> u in q
  {
    match e.event
    case Submit(priority, retries) =>
      var t := Task(s.nextSeq, priority, retries);
      forall u | u in s.queue ensures u.seqNo < t.seqNo { assert u.seqNo in Ids(s.queue); }
      EnqueueSorts(s.queue, t);
      EnqueueDistinct(s.queue, t);
      EnqueueMembers(s.queue, t);
    case _ =>
  }

  /** The places at which a step dispatches are those of the tasks that leave, in queue order. */
  lemma LeavingPlaces(log: seq<Entry>, extra: seq<Entry>, left: seq<Task>, now: int, i: nat)
    requires forall k :: 0 <= k < |extra| ==> !extra[k].Dispatched?
    requires var more := log + extra + DispatchLog(left, now); |log| <= i < |more| && more[i].Dispatched?
    ensures var more := log + extra + DispatchLog(left, now); var m := (i - |log| - |extra|) / 2;
      && i == |log| + |extra| + 2 * m && 0 <= m < |left| && more[i].seqNo == left[m].seqNo
  {
    DispatchLogAt(left, now);
    var more, n := log + extra + DispatchLog(left, now), |log| + |extra|;
    assert forall k :: |log| <= k < n ==> more[k] == extra[k - |log|];
    var m := (i - n) / 2;
    assert i >= n && more[i] == DispatchLog(left, now)[i - n];
    assert DispatchLog(left, now)[2 * m + 1] == Upstream(left[m].seqNo, now);
    assert DispatchLog(left, now)[2 * m] == Dispatched(left[m].seqNo, now);
  }

  /** What a step splits its queue into, with the log that shows it. */
  ghost predicate StepSplit(s: Arc, s1: Arc, q: seq<Task>, n: nat, extra: seq<Entry>, left: seq<Task>, now: int) {
    && q == left + s1.queue && n == |s.log| + |extra|
    && s1.log == s.log + extra + DispatchLog(left, now)
    && (forall k :: 0 <= k < |extra| ==> !extra[k].Dispatched?)
    && Sorted(q) && DistinctNumbers(q)
  }

  /** The task at one place of the queue: dispatched at a known place of the log, or still waiting. */
  lemma StepPlace(s: Arc, s1: Arc, q: seq<Task>, n: nat, extra: seq<Entry>, left: seq<Task>, now: int, k: nat)
    requires StepSplit(s, s1, q, n, extra, left, now) && k < |q|
    ensures q[k] in s1.queue <==> k >= |left|
    ensures k < |left| ==> DispatchedAt(s1.log, n + 2 * k, q[k])
    ensures forall j :: |s.log| <= j && DispatchedAt(s1.log, j, q[k]) ==> k < |left| && j == n + 2 * k
  {
    forall j | |s.log| <= j && DispatchedAt(s1.log, j, q[k]) ensures k < |left| && j == n + 2 * k {
      LeavingPlaces(s.log, extra, left, now, j);
      var m := (j - n) / 2;
      assert q[m] == left[m] && q[m].seqNo == q[k].seqNo;
    }
    DispatchLogAt(left, now);
    if k < |left| {
      assert s1.log[n + 2 * k] == DispatchLog(left, now)[2 * k] == Dispatched(left[k].seqNo, now);
      InOneHalf(left, s1.queue, k);
    } else {
      assert s1.queue[k - |left|] == q[k];
    }
  }

  lemma InOneHalf(left: seq<Task>, rest: seq<Task>, i: nat)
    requires DistinctNumbers(left + rest) && i < |left|
    ensures left[i] !in rest
  {
    var q := left + rest;
    forall k | 0 <= k < |rest| ensures rest[k] != left[i] { assert q[|left| + k].seqNo != q[i].seqNo; }
  }

  ghost predicate LeftInOrder(from: nat, queue: seq<Task>, log: seq<Entry>, a: Task, b: Task) {
    && (b !in queue ==> a !in queue)
    && (a !in queue ==> exists i :: from <= i && DispatchedAt(log, i, a)
                                    && forall j :: from <= j && DispatchedAt(log, j, b) ==> i < j)
    && (a in queue ==> forall j :: from <= j ==> !DispatchedAt(log, j, b))
  }

  lemma SplitInOrder(s: Arc, s1: Arc, q: seq<Task>, n: nat, extra: seq<Entry>, left: seq<Task>, now: int, a: Task,
                     b: Task)
    requires StepSplit(s, s1, q, n, extra, left, now) && a in q && b in q && Before(a, b)
    ensures LeftInOrder(|s.log|, s1.queue, s1.log, a, b)
  {
    var ia :| 0 <= ia < |q| && q[ia] == a;
    var ib :| 0 <= ib < |q| && q[ib] == b;
    StepPlace(s, s1, q, n, extra, left, now, ia);
    StepPlace(s, s1, q, n, extra, left, now, ib);
  }

  /** What one step does to two tasks that wait together. */
  lemma StepInOrder(c: Config, s: Arc, clock: int, e: Timed, a: Task, b: Task)
    requires Inv(c, s, clock) && Enabled(s, e) && a in s.queue && b in s.queue && Before(a, b)
    ensures LeftInOrder(|s.log|, Step(c, s, e).queue, Step(c, s, e).log, a, b)
  {
    var extra, left := StepLogs(c, s, e);
    MiddleQueue(c, s, clock, e);
    SplitInOrder(s, Step(c, s, e), Middle(c, s, e).0.queue, |s.log| + |extra|, extra, left, e.at, a, b);
  }

  /** Two tasks that ever wait together are dispatched in their order, however long the run and whatever joins them. */
  lemma {:induction false} WaitingLeaveInOrder(c: Config, s: Arc, clock: int, events: seq<Timed>, a: Task, b: Task,
                                               j: nat)
    requires Inv(c, s, clock) && Runs(c, s, clock, events)
    requires a in s.queue && b in s.queue
    requires a.priority < b.priority || (a.priority == b.priority && a.seqNo < b.seqNo)
    requires |s.log| <= j && DispatchedAt(After(c, s, clock, events).0.log, j, b)
    ensures exists i :: |s.log| <= i < j && DispatchedAt(After(c, s, clock, events).0.log, i, a)
    decreases |events|
  {
    if events != [] {
      var e, s1 := events[0], Step(c, s, events[0]);
      var log := After(c, s, clock, events).0.log;
      StepKeeps(c, s, clock, e);
      TimePasses(c, s, clock, e.at);
      StepInOrder(c, s, e.at, e, a, b);
      LogGrows(c, s1, e.at, events[1..]);
      var extra, left := StepLogs(c, s, e);
      assert forall i :: 0 <= i < |s1.log| ==> log[i] == s1.log[i];
      if a !in s1.queue {
        var i :| |s.log| <= i && DispatchedAt(s1.log, i, a)
                 && forall k :: |s.log| <= k && DispatchedAt(s1.log, k, b) ==> i < k;
        assert DispatchedAt(log, i, a);
        if j < |s1.log| { assert DispatchedAt(s1.log, j, b); }
      } else {
        if j < |s1.log| { assert DispatchedAt(s1.log, j, b); }
        WaitingLeaveInOrder(c, s1, e.at, events[1..], a, b, j);
      }
    }
  }

  /** Only leaving the queue waits for the breaker: a retry already in a slot calls the upstream while it is open. */
  lemma RetryIgnoresBreaker()
    ensures exists c: Config, events: seq<Timed>, i: nat, j: nat ::
      Runs(c, IDLE, 1, events)
      && var log := After(c, IDLE, 1, events).0.log;
         i < j < |log| && log[i].BreakerOpened? && log[j].Upstream? && log[j].at < log[i].until
  {
    var events, n := RetryRun();
    var log := After(FIVE, IDLE, 1, events).0.log;
    assert log[n].BreakerOpened? && log[n + 1].Upstream? && log[n + 1].at < log[n].until;
  }

  lemma RetryRun() returns (events: seq<Timed>, n: nat)
    ensures Runs(FIVE, IDLE, 1, events)
    ensures var log := After(FIVE, IDLE, 1, events).0.log;
      |log| == n + 2 && log[n] == BreakerOpened(3, 8_003) && log[n + 1] == Upstream(0, 4)
  {
    var s1, s2 := TwoSubmitted();
    var s3 := FirstRetries(s2);
    var s4 := BreakerOpens(s3);
    var log := RetryRuns(s4);
    events := FiveSteps(Timed(1, Submit(50, true)), Timed(1, Submit(50, false)), Timed(2, Answered(0, Transient)),
                        Timed(3, Answered(1, Transient)), Timed(4, RetryWakes(0)), s1, s2, s3, s4);
    n := |s4.log| - 1;
    assert log == s4.log + [Upstream(0, 4)];
  }

  /** Two slots, one retry, a breaker that opens on the first final transient failure. */
  const FIVE := Config(2, 5, 1, 1, 10_000, 8_000)

  lemma TwoSubmitted() returns (s1: Arc, s: Arc)
    ensures s1 == Step(FIVE, IDLE, Timed(1, Submit(50, true))) && s == Step(FIVE, s1, Timed(1, Submit(50, false)))
    ensures s.slots == map[0 := Slot(Task(0, 50, true), 0, Calling), 1 := Slot(Task(1, 50, false), 0, Calling)]
    ensures s.queue == [] && s.inFlight == 2 && s.failures == [] && s.openUntil == 0
  {
    s1 := Step(FIVE, IDLE, Timed(1, Submit(50, true)));
    var one := IDLE.(queue := [Task(0, 50, true)], nextSeq := 1);
    assert s1 == Fill(FIVE, one, 1) == DispatchOne(one, 1);
    assert s1.slots == map[0 := Slot(Task(0, 50, true), 0, Calling)];
    s := Step(FIVE, s1, Timed(1, Submit(50, false)));
    var two := s1.(queue := [Task(1, 50, false)], nextSeq := 2);
    assert s == Fill(FIVE, two, 1) == DispatchOne(two, 1);
  }

  lemma FirstRetries(s: Arc) returns (s': Arc)
    requires s.slots == map[0 := Slot(Task(0, 50, true), 0, Calling), 1 := Slot(Task(1, 50, false), 0, Calling)]
    requires s.queue == [] && s.inFlight == 2 && s.failures == [] && s.openUntil == 0
    ensures s' == Step(FIVE, s, Timed(2, Answered(0, Transient)))
    ensures s'.slots == map[0 := Slot(Task(0, 50, true), 1, Sleeping), 1 := Slot(Task(1, 50, false), 0, Calling)]
    ensures s'.queue == [] && s'.inFlight == 2 && s'.failures == [] && s'.openUntil == 0
  {
    s' := Step(FIVE, s, Timed(2, Answered(0, Transient)));
  }

  lemma RetryRuns(s: Arc) returns (log: seq<Entry>)
    requires 0 in s.slots && s.slots[0] == Slot(Task(0, 50, true), 1, Sleeping)
    ensures log == Step(FIVE, s, Timed(4, RetryWakes(0))).log == s.log + [Upstream(0, 4)]
  {
    log := Step(FIVE, s, Timed(4, RetryWakes(0))).log;
  }

  lemma BreakerOpens(s: Arc) returns (s': Arc)
    requires s.slots == map[0 := Slot(Task(0, 50, true), 1, Sleeping), 1 := Slot(Task(1, 50, false), 0, Calling)]
    requires s.queue == [] && s.inFlight == 2 && s.failures == [] && s.openUntil == 0
    ensures s' == Step(FIVE, s, Timed(3, Answered(1, Transient)))
    ensures 0 in s'.slots && s'.slots[0] == Slot(Task(0, 50, true), 1, Sleeping)
    ensures s'.log != [] && s'.log[|s'.log| - 1] == BreakerOpened(3, 8_003)
  {
    assert [3][1..] == [];
    assert Prune([3], 3 - 10_000) == [3];
    s' := Step(FIVE, s, Timed(3, Answered(1, Transient)));
  }

  lemma FiveSteps(e0: Timed, e1: Timed, e2: Timed, e3: Timed, e4: Timed, s1: Arc, s2: Arc, s3: Arc, s4: Arc)
    returns (events: seq<Timed>)
    requires 1 <= e0.at <= e1.at <= e2.at <= e3.at <= e4.at
    requires Enabled(IDLE, e0) && s1 == Step(FIVE, IDLE, e0)
    requires Enabled(s1, e1) && s2 == Step(FIVE, s1, e1)
    requires Enabled(s2, e2) && s3 == Step(FIVE, s2, e2)
    requires Enabled(s3, e3) && s4 == Step(FIVE, s3, e3) && Enabled(s4, e4)
    ensures Runs(FIVE, IDLE, 1, events) && After(FIVE, IDLE, 1, events).0 == Step(FIVE, s4, e4)
  {
    RunsOne(FIVE, s4, e3.at, e4, []);
    RunsOne(FIVE, s3, e2.at, e3, [e4] + []);
    RunsOne(FIVE, s2, e1.at, e2, [e3] + ([e4] + []));
    RunsOne(FIVE, s1, e0.at, e1, [e2] + ([e3] + ([e4] + [])));
    RunsOne(FIVE, IDLE, 1, e0, [e1] + ([e2] + ([e3] + ([e4] + []))));
    events := [e0] + ([e1] + ([e2] + ([e3] + ([e4] + []))));
  }

  lemma RunsOne(c: Config, s: Arc, clock: int, e: Timed, rest: seq<Timed>)
    requires clock <= e.at && Enabled(s, e) && Runs(c, Step(c, s, e), e.at, rest)
    ensures Runs(c, s, clock, [e] + rest)
    ensures After(c, s, clock, [e] + rest) == After(c, Step(c, s, e), e.at, rest)
  {
    assert ([e] + rest)[1..] == rest;
  }
}
