/**
 What the history of the broadcast queue says by itself: when the breaker opens, who is let in, and
 how often a task calls the upstream. Nothing here reads the queue's own list of failures.
 */
module BroadcastHistory {
  import opened Options
  import opened BroadcastQueue

  /** Until when the breaker opened last stays open; 0 if none ever was. */
  function LastUntil(log: seq<Entry>): int {
    if log == [] then 0
    else if log[|log| - 1].BreakerOpened? then log[|log| - 1].until
    else LastUntil(log[..|log| - 1])
  }

  /** The final transient failures since the last success that lie at or after `since`. */
  function FailuresSince(log: seq<Entry>, since: int): nat {
    if log == [] then 0
    else
      var front, e := log[..|log| - 1], log[|log| - 1];
      if e.Succeeded? then 0
      else FailuresSince(front, since) + Late(e, since)
  }

  function Late(e: Entry, since: int): nat { if e.FinalFailure? && e.at >= since then 1 else 0 }

  /** The breaker is closed, and as many failures as it takes lie in the window that ends now. */
  predicate Burst(c: Config, log: seq<Entry>, at: int) {
    LastUntil(log) <= at && FailuresSince(log, at - c.windowMs) >= c.failureThreshold
  }

  /** A breaker opens right after a final failure that completes a burst, after each of them, and at no other time. */
  ghost predicate OpensOnBursts(c: Config, log: seq<Entry>) {
    && (forall j :: 0 <= j < |log| && log[j].FinalFailure? ==>
          (OpensNext(log, j) <==> Burst(c, log[..j + 1], log[j].at)))
    && (forall j :: 0 <= j < |log| && log[j].BreakerOpened? ==> OpensAt(c, log, j))
  }

  predicate OpensNext(log: seq<Entry>, j: nat) { j + 1 < |log| && log[j + 1].BreakerOpened? }

  predicate OpensAt(c: Config, log: seq<Entry>, j: nat)
    requires j < |log| && log[j].BreakerOpened?
  {
    0 < j && log[j - 1].FinalFailure? && log[j - 1].at == log[j].at && log[j].until == log[j].at + c.openMs
  }

  /** The entry concerns neither failures nor the breaker. */
  predicate Plain(e: Entry) { e.Dispatched? || e.Upstream? || e.Resolved? }

  ghost predicate AllPlain(entries: seq<Entry>) { forall i :: 0 <= i < |entries| ==> Plain(entries[i]) }

  lemma OneMore(log: seq<Entry>, e: Entry)
    ensures LastUntil(log + [e]) == if e.BreakerOpened? then e.until else LastUntil(log)
    ensures forall since ::
      (FailuresSince(log + [e], since) == if e.Succeeded? then 0 else FailuresSince(log, since) + Late(e, since))
  {
    assert (log + [e])[..|log|] == log;
  }

  /** What comes before stays as it was. */
  lemma Prefixes(log: seq<Entry>, more: seq<Entry>)
    ensures forall j :: 0 <= j < |log| ==> (log + more)[j] == log[j] && (log + more)[..j + 1] == log[..j + 1]
  {
  }

  /** Any entry but an opening may follow what is already right. */
  lemma OpensOn(c: Config, log: seq<Entry>, e: Entry)
    requires OpensOnBursts(c, log) && !e.BreakerOpened?
    requires e.FinalFailure? ==> !Burst(c, log + [e], e.at)
    ensures OpensOnBursts(c, log + [e])
  {
    var all := log + [e];
    Prefixes(log, [e]);
    assert all[..|log| + 1] == all;
    forall j | 0 <= j < |all| && all[j].FinalFailure?
      ensures OpensNext(all, j) <==> Burst(c, all[..j + 1], all[j].at)
    {
      if j < |log| { assert OpensNext(all, j) <==> OpensNext(log, j); }
    }
    forall j | 0 <= j < |all| && all[j].BreakerOpened? ensures OpensAt(c, all, j) { assert OpensAt(c, log, j); }
  }

  /** A failure that completes a burst, and the opening. */
  lemma OpensTwo(c: Config, log: seq<Entry>, task: Task, at: int)
    requires OpensOnBursts(c, log) && Burst(c, log + [FinalFailure(task, at)], at)
    ensures OpensOnBursts(c, log + [FinalFailure(task, at)] + [BreakerOpened(at, at + c.openMs)])
  {
    var two := [FinalFailure(task, at), BreakerOpened(at, at + c.openMs)];
    var all := log + two;
    assert log + [two[0]] + [two[1]] == all && all[..|log| + 1] == log + [two[0]];
    Prefixes(log, two);
    forall j | 0 <= j < |all| && all[j].FinalFailure?
      ensures OpensNext(all, j) <==> Burst(c, all[..j + 1], all[j].at)
    {
      if j < |log| { assert OpensNext(all, j) <==> OpensNext(log, j); }
    }
    forall j | 0 <= j < |all| && all[j].BreakerOpened? ensures OpensAt(c, all, j) {
      if j < |log| { assert OpensAt(c, log, j); }
    }
  }

  lemma {:induction false} PlainTail(c: Config, log: seq<Entry>, more: seq<Entry>)
    requires OpensOnBursts(c, log) && AllPlain(more)
    ensures OpensOnBursts(c, log + more) && LastUntil(log + more) == LastUntil(log)
    ensures forall since :: FailuresSince(log + more, since) == FailuresSince(log, since)
    decreases |more|
  {
    if more == [] {
      assert log + more == log;
    } else {
      var front, e := more[..|more| - 1], more[|more| - 1];
      PlainTail(c, log, front);
      assert log + more == (log + front) + [e];
      OneMore(log + front, e);
      OpensOn(c, log + front, e);
    }
  }

  // ---------- the queue's own memory agrees ----------

  /** The failures it remembers count as those of the history, from `since` on. */
  ghost predicate Counted(failures: seq<int>, log: seq<Entry>, since: int) {
    forall t :: t >= since ==> |Prune(failures, t)| == FailuresSince(log, t)
  }

  ghost predicate Told(c: Config, s: Arc, clock: int) {
    && s.openUntil == LastUntil(s.log) && OpensOnBursts(c, s.log)
    && Counted(s.failures, s.log, clock - c.windowMs)
  }

  lemma {:induction false} PruneTwice(failures: seq<int>, since: int, t: int)
    requires since <= t
    ensures Prune(Prune(failures, since), t) == Prune(failures, t)
  {
    if failures != [] {
      PruneTwice(failures[1..], since, t);
      if failures[0] >= since {
        assert ([failures[0]] + Prune(failures[1..], since))[1..] == Prune(failures[1..], since);
      } else {
        assert Prune(failures, since) == Prune(failures[1..], since);
        assert [] + Prune(failures[1..], t) == Prune(failures, t);
      }
    }
  }

  lemma {:induction false} PruneSnoc(failures: seq<int>, x: int, t: int)
    ensures |Prune(failures + [x], t)| == |Prune(failures, t)| + if x >= t then 1 else 0
  {
    if failures == [] {
      assert failures + [x] == [x] && [x][1..] == [];
    } else {
      PruneSnoc(failures[1..], x, t);
      assert (failures + [x])[1..] == failures[1..] + [x];
    }
  }

  lemma FailureCounted(c: Config, s: Arc, now: int, task: Task)
    requires Counted(s.failures, s.log, now - c.windowMs)
    ensures var failed := FailureNoted(c, s, now, task);
      && Counted(failed.failures, failed.log, now - c.windowMs)
      && |failed.failures| == FailuresSince(failed.log, now - c.windowMs)
  {
    var since := now - c.windowMs;
    var failed := FailureNoted(c, s, now, task);
    OneMore(s.log, FinalFailure(task, now));
    forall t | t >= since ensures |Prune(failed.failures, t)| == FailuresSince(failed.log, t) {
      PruneTwice(s.failures + [now], since, t);
      PruneSnoc(s.failures, now, t);
    }
    PruneTwice(s.failures + [now], since, since);
  }

  lemma BurstTold(c: Config, s: Arc, now: int, task: Task)
    requires Told(c, s, now) && now >= s.openUntil
    requires |FailureNoted(c, s, now, task).failures| >= c.failureThreshold
    ensures Told(c, OpenBreaker(FailureNoted(c, s, now, task), now, now + c.openMs), now)
  {
    var failed := FailureNoted(c, s, now, task);
    FailureCounted(c, s, now, task);
    OneMore(s.log, FinalFailure(task, now));
    OpensTwo(c, s.log, task, now);
    OneMore(failed.log, BreakerOpened(now, now + c.openMs));
  }

  lemma NoBurstTold(c: Config, s: Arc, now: int, task: Task)
    requires Told(c, s, now)
    requires now < s.openUntil || |FailureNoted(c, s, now, task).failures| < c.failureThreshold
    ensures Told(c, FailureNoted(c, s, now, task), now)
  {
    FailureCounted(c, s, now, task);
    OneMore(s.log, FinalFailure(task, now));
    OpensOn(c, s.log, FinalFailure(task, now));
  }

  lemma TransientTold(c: Config, s: Arc, now: int, task: Task)
    requires Told(c, s, now)
    ensures Told(c, NoteTransient(c, s, now, task), now)
  {
    var failed := FailureNoted(c, s, now, task);
    if |failed.failures| >= c.failureThreshold && now >= s.openUntil {
      BurstTold(c, s, now, task);
      assert NoteTransient(c, s, now, task) == OpenBreaker(failed, now, now + c.openMs);
    } else {
      NoBurstTold(c, s, now, task);
      assert NoteTransient(c, s, now, task) == failed;
    }
  }

  lemma SuccessTold(c: Config, s: Arc, now: int)
    requires Told(c, s, now)
    ensures Told(c, Logged(s.(failures := []), Succeeded(now)), now)
  {
    OneMore(s.log, Succeeded(now));
    OpensOn(c, s.log, Succeeded(now));
  }

  lemma AnswerTold(c: Config, s: Arc, now: int, id: nat, outcome: Outcome)
    requires Told(c, s, now) && id in s.slots
    ensures Told(c, Answer(c, s, now, id, outcome), now)
  {
    if outcome == Seen { SuccessTold(c, s, now); }
    if outcome == Transient { TransientTold(c, s, now, s.slots[id].task); }
  }

  lemma {:induction false} PlainDispatches(ts: seq<Task>, now: int)
    ensures AllPlain(DispatchLog(ts, now))
  {
    if ts != [] { PlainDispatches(ts[1..], now); }
  }

  lemma {:induction false} FillSame(c: Config, s: Arc, now: int)
    ensures Fill(c, s, now).failures == s.failures && Fill(c, s, now).openUntil == s.openUntil
    decreases |s.queue|
  {
    if s.inFlight < c.maxConcurrent && s.queue != [] { FillSame(c, DispatchOne(s, now), now); }
  }

  lemma OtherLogs(c: Config, s: Arc, e: Timed) returns (more: seq<Entry>)
    requires Enabled(s, e) && !e.event.Answered?
    ensures Step(c, s, e).log == s.log + more && AllPlain(more)
  {
    var extra, left := StepLogs(c, s, e);
    PlainDispatches(left, e.at);
    OtherPlain(c, s, e, extra);
    more := extra + DispatchLog(left, e.at);
    assert s.log + more == s.log + extra + DispatchLog(left, e.at);
  }

  /** A step that is no answer leaves the breaker's memory, or prunes it. */
  lemma OtherKeeps(c: Config, s: Arc, e: Timed)
    requires Enabled(s, e) && !e.event.Answered?
    ensures var s1 := Step(c, s, e);
      && s1.openUntil == s.openUntil
      && s1.failures == if e.event.StateRead? then Prune(s.failures, e.at - c.windowMs) else s.failures
  {
    match e.event
    case Submit(priority, retries) =>
      FillSame(c, s.(queue := Enqueue(s.queue, Task(s.nextSeq, priority, retries)), nextSeq := s.nextSeq + 1), e.at);
    case Settles(id) => FillSame(c, Freed(s, id), e.at);
    case TimerFires => FillSame(c, s.(timer := None), e.at);
    case _ =>
  }

  lemma OtherTold(c: Config, s: Arc, e: Timed)
    requires Told(c, s, e.at) && Enabled(s, e) && !e.event.Answered?
    ensures Told(c, Step(c, s, e), e.at)
  {
    var more := OtherLogs(c, s, e);
    OtherKeeps(c, s, e);
    PlainTail(c, s.log, more);
    forall t | t >= e.at - c.windowMs ensures Prune(Prune(s.failures, e.at - c.windowMs), t) == Prune(s.failures, t) {
      PruneTwice(s.failures, e.at - c.windowMs, t);
    }
  }

  lemma OtherPlain(c: Config, s: Arc, e: Timed, extra: seq<Entry>)
    requires Enabled(s, e) && !e.event.Answered? && Middle(c, s, e).0.log == s.log + extra
    ensures AllPlain(extra)
  {
    var log := Middle(c, s, e).0.log;
    assert extra == log[|s.log|..];
  }

  lemma StepTold(c: Config, s: Arc, clock: int, e: Timed)
    requires Told(c, s, clock) && clock <= e.at && Enabled(s, e)
    ensures Told(c, Step(c, s, e), e.at)
  {
    assert Told(c, s, e.at);
    if e.event.Answered? { AnswerTold(c, s, e.at, e.event.id, e.event.outcome); } else { OtherTold(c, s, e); }
  }

  lemma {:induction false} RunTold(c: Config, s: Arc, clock: int, events: seq<Timed>)
    requires Told(c, s, clock) && Runs(c, s, clock, events)
    ensures var (s', clock') := After(c, s, clock, events); Told(c, s', clock')
    decreases |events|
  {
    if events != [] {
      StepTold(c, s, clock, events[0]);
      RunTold(c, Step(c, s, events[0]), events[0].at, events[1..]);
    }
  }

  /** In every run the breaker opens exactly on the bursts of final failures that the history shows. */
  lemma BreakerOpensOnBursts(c: Config, clock: int, events: seq<Timed>)
    requires Runs(c, IDLE, clock, events)
    ensures OpensOnBursts(c, After(c, IDLE, clock, events).0.log)
  {
    assert Told(c, IDLE, clock);
    RunTold(c, IDLE, clock, events);
  }

  // ---------- who is let in ----------

  /** Some breaker opened so far stays open past `now`. */
  ghost predicate OpenPast(log: seq<Entry>, now: int) {
    exists i :: 0 <= i < |log| && log[i].BreakerOpened? && log[i].until > now
  }

  lemma {:induction false} LastUntilPlace(log: seq<Entry>)
    ensures LastUntil(log) == 0 || exists i :: 0 <= i < |log| && log[i].BreakerOpened? && log[i].until == LastUntil(log)
  {
    if log != [] {
      var n := |log| - 1;
      LastUntilPlace(log[..n]);
      if !log[n].BreakerOpened? && LastUntil(log) != 0 {
        var i :| 0 <= i < n && log[..n][i].BreakerOpened? && log[..n][i].until == LastUntil(log[..n]);
        assert log[i] == log[..n][i];
      }
    }
  }

  lemma OpenIsOpenPast(c: Config, clock: int, events: seq<Timed>, now: int)
    requires clock >= 0 && Runs(c, IDLE, clock, events) && After(c, IDLE, clock, events).1 <= now
    ensures var s := After(c, IDLE, clock, events).0; IsOpen(s, now) <==> OpenPast(s.log, now)
    ensures Inv(c, After(c, IDLE, clock, events).0, now)
  {
    assert Told(c, IDLE, clock);
    RunTold(c, IDLE, clock, events);
    RunKeeps(c, IDLE, clock, events);
    ClockGrows(c, IDLE, clock, events);
    TimePasses(c, After(c, IDLE, clock, events).0, After(c, IDLE, clock, events).1, now);
    LastUntilPlace(After(c, IDLE, clock, events).0.log);
  }

  lemma QueuedDistinct(c: Config, s: Arc, now: int, t: Task)
    requires Inv(c, s, now) && t.seqNo == s.nextSeq && |s.queue| < c.maxQueueDepth
    ensures DistinctNumbers(Enqueue(s.queue, t)) && t in Enqueue(s.queue, t)
  {
    EnqueueMid(c, s, now, t);
    EnqueueMembers(s.queue, t);
  }

  /** Whoever is let in waits or holds a slot. */
  lemma AcceptedHas(c: Config, s: Arc, now: int, priority: int, retries: bool)
    requires Inv(c, s, now) && !IsOpen(s, now) && |s.queue| < c.maxQueueDepth
    ensures Has(Broadcast(c, s, now, priority, retries).0, Task(s.nextSeq, priority, retries))
  {
    var t := Task(s.nextSeq, priority, retries);
    QueuedDistinct(c, s, now, t);
    FillHas(c, s.(queue := Enqueue(s.queue, t), nextSeq := s.nextSeq + 1), now, t);
    AcceptedIs(c, s, now, priority, retries);
  }

  /**
   A caller is refused exactly while a breaker that the run has opened is open, or else while the
   queue is full; a refusal changes nothing, and whoever is let in waits or holds a slot.
   */
  lemma AdmissionExact(c: Config, clock: int, events: seq<Timed>, now: int, priority: int, retries: bool)
    requires clock >= 0 && Runs(c, IDLE, clock, events) && After(c, IDLE, clock, events).1 <= now
    ensures var s := After(c, IDLE, clock, events).0;
      var (s', r) := Broadcast(c, s, now, priority, retries);
      && (r == CircuitOpen <==> OpenPast(s.log, now))
      && (r == QueueSaturated <==> !OpenPast(s.log, now) && |s.queue| >= c.maxQueueDepth)
      && (r.Accepted? ==> r.seqNo == s.nextSeq && Has(s', Task(r.seqNo, priority, retries)))
      && (!r.Accepted? ==> s' == s)
  {
    var s := After(c, IDLE, clock, events).0;
    OpenIsOpenPast(c, clock, events, now);
    if !IsOpen(s, now) && |s.queue| < c.maxQueueDepth { AcceptedHas(c, s, now, priority, retries); }
  }

  /** The task waits, or holds the slot of its number. */
  ghost predicate Has(s: Arc, t: Task) {
    || t in s.queue
    || (t.seqNo in s.slots && s.slots[t.seqNo].task == t && forall u :: u in s.queue ==> u.seqNo != t.seqNo)
  }

  lemma {:induction false} FillHas(c: Config, s: Arc, now: int, t: Task)
    requires DistinctNumbers(s.queue) && Has(s, t)
    ensures Has(Fill(c, s, now), t)
    decreases |s.queue|
  {
    if s.inFlight < c.maxConcurrent && s.queue != [] {
      var first, rest := s.queue[0], s.queue[1..];
      assert s.queue == [first] + rest;
      forall u | u in rest ensures u.seqNo != first.seqNo {
        var j :| 0 <= j < |rest| && rest[j] == u;
        assert s.queue[j + 1] == u;
      }
      FillHas(c, DispatchOne(s, now), now, t);
    }
  }

  lemma {:induction false} ClockGrows(c: Config, s: Arc, clock: int, events: seq<Timed>)
    requires Runs(c, s, clock, events)
    ensures clock <= After(c, s, clock, events).1
    decreases |events|
  {
    if events != [] { ClockGrows(c, Step(c, s, events[0]), events[0].at, events[1..]); }
  }

  // ---------- how often a task calls the upstream ----------

  function Calls(log: seq<Entry>, n: nat): nat {
    if log == [] then 0
    else Calls(log[..|log| - 1], n) + if log[|log| - 1].Upstream? && log[|log| - 1].seqNo == n then 1 else 0
  }

  /** The calls a task in this state has made. */
  function Made(slot: Slot): nat { slot.attempt + if slot.phase == Sleeping then 0 else 1 }

  ghost predicate CallsRight(c: Config, s: Arc) {
    && (forall n :: n in s.slots ==> SlotRight(c, s.log, n, s.slots[n]))
    && (forall u :: u in s.queue ==> Calls(s.log, u.seqNo) == 0)
    && (forall n: nat :: n >= s.nextSeq ==> Calls(s.log, n) == 0)
    && (forall n: nat :: Calls(s.log, n) <= 1 + c.retryAttempts)
    && FinalsRight(c, s.log)
  }

  ghost predicate SlotRight(c: Config, log: seq<Entry>, n: nat, slot: Slot) {
    slot.task.seqNo == n && Calls(log, n) == Made(slot) && slot.attempt < TotalAttempts(c, slot.task)
  }

  /** A failure is final only after every call the task may make: one, and the retries if it has any. */
  ghost predicate FinalsRight(c: Config, log: seq<Entry>) {
    forall j :: 0 <= j < |log| && log[j].FinalFailure? ==>
      Calls(log[..j], log[j].task.seqNo) == 1 + if log[j].task.retries then c.retryAttempts else 0
  }

  lemma OneCall(log: seq<Entry>, e: Entry)
    ensures forall n ::
      Calls(log + [e], n) == Calls(log, n) + (if e.Upstream? && e.seqNo == n then 1 else 0)
  {
    assert (log + [e])[..|log|] == log;
  }

  lemma FinalsOn(c: Config, log: seq<Entry>, e: Entry)
    requires FinalsRight(c, log)
    requires e.FinalFailure? ==> Calls(log, e.task.seqNo) == 1 + if e.task.retries then c.retryAttempts else 0
    ensures FinalsRight(c, log + [e])
  {
    var all := log + [e];
    assert all[..|log|] == log;
    forall j | 0 <= j < |all| && all[j].FinalFailure?
      ensures Calls(all[..j], all[j].task.seqNo) == 1 + if all[j].task.retries then c.retryAttempts else 0
    {
      if j < |log| { assert all[..j] == log[..j] && all[j] == log[j]; }
    }
  }

  lemma DispatchedOnce(c: Config, log: seq<Entry>, n: nat, now: int)
    requires FinalsRight(c, log)
    ensures var more := log + [Dispatched(n, now), Upstream(n, now)];
      && FinalsRight(c, more)
      && forall m :: Calls(more, m) == Calls(log, m) + (if m == n then 1 else 0)
  {
    var log1 := log + [Dispatched(n, now)];
    assert log + [Dispatched(n, now), Upstream(n, now)] == log1 + [Upstream(n, now)];
    OneCall(log, Dispatched(n, now));
    OneCall(log1, Upstream(n, now));
    FinalsOn(c, log, Dispatched(n, now));
    FinalsOn(c, log1, Upstream(n, now));
  }

  lemma FrontIsNew(s: Arc)
    requires Conserved(s) && s.queue != []
    ensures var n := s.queue[0].seqNo;
      n < s.nextSeq && n !in s.slots && forall u :: u in s.queue[1..] ==> u.seqNo != n && u in s.queue
  {
    var rest := s.queue[1..];
    assert s.queue[0].seqNo in Ids(s.queue);
    forall u | u in rest ensures u.seqNo != s.queue[0].seqNo && u in s.queue {
      var j :| 0 <= j < |rest| && rest[j] == u;
      assert s.queue[j + 1] == u;
    }
  }

  lemma DispatchCalls(c: Config, s: Arc, now: int)
    requires CallsRight(c, s) && Conserved(s) && s.queue != []
    ensures CallsRight(c, DispatchOne(s, now))
  {
    var t, s1 := s.queue[0], DispatchOne(s, now);
    FrontIsNew(s);
    DispatchedOnce(c, s.log, t.seqNo, now);
    forall n | n in s1.slots ensures SlotRight(c, s1.log, n, s1.slots[n]) {
      if n != t.seqNo { assert SlotRight(c, s.log, n, s.slots[n]); }
    }
  }

  lemma {:induction false} FillCalls(c: Config, s: Arc, now: int)
    requires CallsRight(c, s) && Mid(c, s) && s.openUntil <= now
    ensures CallsRight(c, Fill(c, s, now))
    decreases |s.queue|
  {
    if s.inFlight < c.maxConcurrent && s.queue != [] {
      DispatchCalls(c, s, now);
      DispatchKeeps(c, s, now);
      FillCalls(c, DispatchOne(s, now), now);
    }
  }

  lemma ScheduleCalls(c: Config, s: Arc, now: int)
    requires CallsRight(c, s) && Mid(c, s)
    ensures CallsRight(c, Schedule(c, s, now))
  {
    if !IsOpen(s, now) { FillCalls(c, s, now); }
  }

  lemma EnqueueCalls(c: Config, s: Arc, t: Task)
    requires CallsRight(c, s) && t.seqNo == s.nextSeq
    ensures CallsRight(c, s.(queue := Enqueue(s.queue, t), nextSeq := s.nextSeq + 1))
  {
    EnqueueMembers(s.queue, t);
  }

  lemma EnqueueMid(c: Config, s: Arc, now: int, t: Task)
    requires Inv(c, s, now) && t.seqNo == s.nextSeq && |s.queue| < c.maxQueueDepth
    ensures Mid(c, s.(queue := Enqueue(s.queue, t), nextSeq := s.nextSeq + 1))
  {
    forall u | u in s.queue ensures u.seqNo < t.seqNo { assert u.seqNo in Ids(s.queue); }
    EnqueueSorts(s.queue, t);
    EnqueueConserves(s, t);
  }

  lemma SubmitCalls(c: Config, s: Arc, now: int, priority: int, retries: bool)
    requires CallsRight(c, s) && Inv(c, s, now)
    ensures CallsRight(c, Broadcast(c, s, now, priority, retries).0)
  {
    if !IsOpen(s, now) && |s.queue| < c.maxQueueDepth {
      var t := Task(s.nextSeq, priority, retries);
      EnqueueCalls(c, s, t);
      EnqueueMid(c, s, now, t);
      ScheduleCalls(c, s.(queue := Enqueue(s.queue, t), nextSeq := s.nextSeq + 1), now);
      AcceptedIs(c, s, now, priority, retries);
    }
  }

  lemma NotedCalls(c: Config, s: Arc, e: Entry)
    requires CallsRight(c, s) && !e.Upstream?
    requires e.FinalFailure? ==>
      Calls(s.log, e.task.seqNo) == 1 + if e.task.retries then c.retryAttempts else 0
    ensures CallsRight(c, Logged(s, e))
  {
    OneCall(s.log, e);
    FinalsOn(c, s.log, e);
  }

  lemma TransientCalls(c: Config, s: Arc, now: int, task: Task)
    requires CallsRight(c, s) && Calls(s.log, task.seqNo) == 1 + if task.retries then c.retryAttempts else 0
    ensures CallsRight(c, NoteTransient(c, s, now, task))
  {
    var failed := FailureNoted(c, s, now, task);
    NotedCalls(c, s.(failures := failed.failures), FinalFailure(task, now));
    assert CallsRight(c, failed);
    if |failed.failures| >= c.failureThreshold && now >= s.openUntil {
      var until := now + c.openMs;
      NotedCalls(c, failed.(openUntil := until, timer := Some(until)), BreakerOpened(now, until));
      assert NoteTransient(c, s, now, task) == OpenBreaker(failed, now, until);
    } else {
      assert NoteTransient(c, s, now, task) == failed;
    }
  }

  lemma AnswerCalls(c: Config, s: Arc, now: int, id: nat, outcome: Outcome)
    requires CallsRight(c, s) && Enabled(s, Timed(now, Answered(id, outcome)))
    ensures CallsRight(c, Answer(c, s, now, id, outcome))
  {
    var slot := s.slots[id];
    if outcome == Seen {
      NotedCalls(c, s.(failures := []), Succeeded(now));
    } else if outcome == Transient && slot.attempt + 1 >= TotalAttempts(c, slot.task) {
      TransientCalls(c, s, now, slot.task);
      NotedSlots(c, s, now, outcome, slot.task);
    }
    if !(outcome == Transient && slot.attempt + 1 < TotalAttempts(c, slot.task)) {
      SettlesRight(c, Noted(c, s, now, outcome, slot.task), id, slot);
    }
  }

  lemma SettlesRight(c: Config, s: Arc, id: nat, slot: Slot)
    requires CallsRight(c, s) && id in s.slots && s.slots[id] == slot && slot.phase == Calling
    ensures CallsRight(c, s.(slots := s.slots[id := slot.(phase := Settled)]))
  {
  }

  lemma HeldIsKnown(s: Arc, id: nat)
    requires Conserved(s) && id in s.slots
    ensures id < s.nextSeq && forall u :: u in s.queue ==> u.seqNo != id
  {
    assert id !in Ids(s.queue);
    forall u | u in s.queue ensures u.seqNo != id { assert u.seqNo in Ids(s.queue); }
  }

  lemma WakeCalls(c: Config, s: Arc, now: int, id: nat)
    requires CallsRight(c, s) && Conserved(s) && Enabled(s, Timed(now, RetryWakes(id)))
    ensures CallsRight(c, Step(c, s, Timed(now, RetryWakes(id))))
  {
    OneCall(s.log, Upstream(id, now));
    FinalsOn(c, s.log, Upstream(id, now));
    HeldIsKnown(s, id);
  }

  lemma SettleCalls(c: Config, s: Arc, now: int, id: nat)
    requires CallsRight(c, s) && Inv(c, s, now) && id in s.slots
    ensures CallsRight(c, Finish(c, s, now, id))
  {
    FreedKeeps(c, s, id);
    NotedCalls(c, s, Resolved(id));
    ScheduleCalls(c, Freed(s, id), now);
  }

  lemma StepCalls(c: Config, s: Arc, clock: int, e: Timed)
    requires CallsRight(c, s) && Inv(c, s, clock) && clock <= e.at && Enabled(s, e)
    ensures CallsRight(c, Step(c, s, e))
  {
    TimePasses(c, s, clock, e.at);
    match e.event
    case Submit(priority, retries) => SubmitCalls(c, s, e.at, priority, retries);
    case Answered(id, outcome) => AnswerCalls(c, s, e.at, id, outcome);
    case RetryWakes(id) => WakeCalls(c, s, e.at, id);
    case Settles(id) => SettleCalls(c, s, e.at, id);
    case TimerFires => ScheduleCalls(c, s.(timer := None), e.at);
    case StateRead =>
  }

  lemma {:induction false} RunCalls(c: Config, s: Arc, clock: int, events: seq<Timed>)
    requires CallsRight(c, s) && Inv(c, s, clock) && Runs(c, s, clock, events)
    ensures CallsRight(c, After(c, s, clock, events).0)
    decreases |events|
  {
    if events != [] {
      StepCalls(c, s, clock, events[0]);
      StepKeeps(c, s, clock, events[0]);
      RunCalls(c, Step(c, s, events[0]), events[0].at, events[1..]);
    }
  }

  /** In every run a task makes at most one call and its retries, and fails for good only after all of them. */
  lemma CallsAreBounded(c: Config, clock: int, events: seq<Timed>)
    requires clock >= 0 && Runs(c, IDLE, clock, events)
    ensures var log := After(c, IDLE, clock, events).0.log;
      FinalsRight(c, log) && forall n: nat :: Calls(log, n) <= 1 + c.retryAttempts
  {
    RunCalls(c, IDLE, clock, events);
  }

  /**
   What an answer leaves, by the calls its task has made: a success is noted; a transient failure is
   noted if no call is left, and otherwise retried in silence; any other failure only settles the task.
   */
  lemma AnswerExact(c: Config, clock: int, events: seq<Timed>, now: int, id: nat, outcome: Outcome)
    requires clock >= 0 && Runs(c, IDLE, clock, events)
    requires Enabled(After(c, IDLE, clock, events).0, Timed(now, Answered(id, outcome)))
    ensures var s := After(c, IDLE, clock, events).0;
      var s', task := Step(c, s, Timed(now, Answered(id, outcome))), s.slots[id].task;
      var left := Calls(s.log, id) < 1 + if task.retries then c.retryAttempts else 0;
      && id in s'.slots && s'.slots[id].task == task
      && s'.slots[id].phase == (if outcome == Transient && left then Sleeping else Settled)
      && (outcome == Seen ==> s'.log == s.log + [Succeeded(now)])
      && (outcome == Transient && !left ==> s.log + [FinalFailure(task, now)] <= s'.log)
      && (outcome == OtherFailure || (outcome == Transient && left) ==> s'.log == s.log)
  {
    RunCalls(c, IDLE, clock, events);
    var s := After(c, IDLE, clock, events).0;
    assert SlotRight(c, s.log, id, s.slots[id]);
    NotedSlots(c, s, now, outcome, s.slots[id].task);
  }
}
