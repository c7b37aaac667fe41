/**
 What the history of a treasury recovery says in figures: which state a tick persists and what it
 does next, that RECOVERING outlives every tick, and which steps a recovery takes in which order.
 */
module FundingHistory {
  import opened Options
  import opened FundingRecovery

  // ---------- what a tick makes of what it saw ----------

  predicate IsSight(e: Entry) { e.Saw? || e.Skipped? }

  /** The last figures a tick has seen. */
  ghost predicate LastSight(log: seq<Entry>, k: int) {
    0 <= k < |log| && IsSight(log[k]) && forall j :: k < j < |log| ==> !IsSight(log[j])
  }

  /** Unfunded is DRY; funded again after DRY is RECOVERING; otherwise the low threshold decides. */
  predicate Persists(c: Config, sight: Entry, state: Health)
    requires IsSight(sight)
  {
    match sight
    case Saw(previous, b, n) =>
      (match state
       case Dry => n == 0 || b < c.dryThreshold
       case Recovering => n > 0 && c.dryThreshold <= b && previous == Dry
       case Low => n > 0 && c.dryThreshold <= b < c.lowThreshold && previous != Dry
       case Healthy => n > 0 && c.dryThreshold <= b && c.lowThreshold <= b && previous != Dry)
    case Skipped => state == Dry
  }

  /** Only money that arrives after DRY starts a recovery. */
  predicate Recovers(c: Config, sight: Entry)
    requires IsSight(sight)
  {
    sight.Saw? && sight.previous == Dry && sight.count > 0 && c.dryThreshold <= sight.balance
  }

  /** Entering DRY alerts, and so does falling from HEALTHY below the low threshold. */
  predicate Alarms(c: Config, sight: Entry)
    requires IsSight(sight)
  {
    && sight.Saw? && sight.previous != Dry
    && (sight.count == 0 || sight.balance < c.dryThreshold
        || (sight.previous == Healthy && sight.balance < c.lowThreshold))
  }

  predicate Follows(c: Config, sight: Entry, next: Then)
    requires IsSight(sight)
  {
    (next == StartsRecovery <==> Recovers(c, sight)) && (next == Alerts <==> Alarms(c, sight))
  }

  /** What a tick is about to do follows from the last figures seen. */
  ghost predicate TickRight(c: Config, s: State) {
    match s.tick
    case Evaluating(previous) => previous != Recovering
    case Upserting(state, next) =>
      exists k :: LastSight(s.log, k) && Persists(c, s.log[k], state) && Follows(c, s.log[k], next)
    case Caching(state, next) =>
      exists k :: LastSight(s.log, k) && Persists(c, s.log[k], state) && Follows(c, s.log[k], next)
    case Publishing(next) => exists k :: LastSight(s.log, k) && Follows(c, s.log[k], next)
    case _ => true
  }

  lemma SightStays(log: seq<Entry>, e: Entry, k: int)
    requires LastSight(log, k) && !IsSight(e)
    ensures LastSight(log + [e], k) && (log + [e])[k] == log[k]
  {
  }

  /** What the others add to the history is no sight. */
  ghost predicate Extends(log: seq<Entry>, log': seq<Entry>) {
    log <= log' && forall j :: |log| <= j < |log'| ==> !IsSight(log'[j])
  }

  lemma SightExtends(log: seq<Entry>, log': seq<Entry>, k: int)
    requires LastSight(log, k) && Extends(log, log')
    ensures LastSight(log', k) && log'[k] == log[k]
  {
    forall j | k < j < |log'| ensures !IsSight(log'[j]) {
      if j < |log| { assert log[j] == log'[j]; }
    }
  }

  lemma RightOn(c: Config, s: State, s': State)
    requires TickRight(c, s) && s'.tick == s.tick && Extends(s.log, s'.log)
    ensures TickRight(c, s')
  {
    if k :| LastSight(s.log, k) { SightExtends(s.log, s'.log, k); }
    match s.tick
    case Upserting(state, next) =>
      var k :| LastSight(s.log, k) && Persists(c, s.log[k], state) && Follows(c, s.log[k], next);
      SightExtends(s.log, s'.log, k);
    case Caching(state, next) =>
      var k :| LastSight(s.log, k) && Persists(c, s.log[k], state) && Follows(c, s.log[k], next);
      SightExtends(s.log, s'.log, k);
    case Publishing(next) =>
      var k :| LastSight(s.log, k) && Follows(c, s.log[k], next);
      SightExtends(s.log, s'.log, k);
    case _ =>
  }

  lemma DecidesRight(c: Config, s: State, balance: int, count: nat)
    requires TickRight(c, s) && s.tick.Evaluating?
    ensures TickRight(c, Next(c, s, TickDecides(balance, count)))
  {
    var s' := Next(c, s, TickDecides(balance, count));
    assert LastSight(s'.log, |s.log|);
    assert s'.log[|s.log|] == Saw(s.tick.previous, balance, count);
    assert Persists(c, s'.log[|s.log|], s'.tick.state);
    assert Follows(c, s'.log[|s.log|], s'.tick.next);
  }

  lemma TickKeepsRight(c: Config, s: State, e: Event)
    requires TickRight(c, s) && Enabled(s, e) && IsTickEvent(e)
    ensures TickRight(c, Next(c, s, e))
  {
    var s' := Next(c, s, e);
    match e
    case TickDecides(balance, count) => DecidesRight(c, s, balance, count);
    case TickSkips =>
      assert LastSight(s'.log, |s.log|) && s'.log[|s.log|] == Skipped;
      assert Persists(c, s'.log[|s.log|], Dry) && Follows(c, s'.log[|s.log|], Ends);
    case TickCaches =>
      var k :| LastSight(s.log, k) && Persists(c, s.log[k], s.tick.state) && Follows(c, s.log[k], s.tick.next);
      SightStays(s.log, TickCached(s.tick.state), k);
    case _ =>
  }

  lemma OthersKeepTick(c: Config, s: State, e: Event)
    requires Enabled(s, e) && !IsTickEvent(e) && e != Crash
    ensures Next(c, s, e).tick == s.tick && Extends(s.log, Next(c, s, e).log)
  {
    if e.StepOk? || e.StepFails? || e.StepTimesOut? { StepsKeepTick(c, s, e); }
  }

  lemma StepsKeepTick(c: Config, s: State, e: Event)
    requires Enabled(s, e) && (e.StepOk? || e.StepFails? || e.StepTimesOut?)
    ensures Next(c, s, e).tick == s.tick && Extends(s.log, Next(c, s, e).log)
  {
  }

  lemma {:induction false} RunRight(c: Config, s: State, events: seq<Event>)
    requires TickRight(c, s) && Runs(c, s, events)
    ensures TickRight(c, After(c, s, events))
    decreases |events|
  {
    if events != [] {
      var e := events[0];
      if IsTickEvent(e) { TickKeepsRight(c, s, e); }
      else if e != Crash {
        OthersKeepTick(c, s, e);
        RightOn(c, s, Next(c, s, e));
      }
      RunRight(c, Next(c, s, e), events[1..]);
    }
  }

  /** In every run, a tick persists the state that the last figures seen and the row it read stand for. */
  lemma TickPersists(c: Config, row: Health, events: seq<Event>) returns (k: int)
    requires Runs(c, Boot(row), events) && Enabled(After(c, Boot(row), events), TickUpserts)
    ensures var s := After(c, Boot(row), events);
      LastSight(s.log, k) && Persists(c, s.log[k], Next(c, s, TickUpserts).row)
  {
    RunRight(c, Boot(row), events);
    var s := After(c, Boot(row), events);
    k :| LastSight(s.log, k) && Persists(c, s.log[k], s.tick.state) && Follows(c, s.log[k], s.tick.next);
  }

  /**
   In every run, a tick starts a recovery exactly when it saw money after DRY and none is in flight
   and nobody asked to stop; it raises an alert exactly on entering DRY or falling from HEALTHY to LOW.
   */
  lemma TickActs(c: Config, row: Health, events: seq<Event>) returns (k: int)
    requires Runs(c, Boot(row), events) && Enabled(After(c, Boot(row), events), TickPublishes)
    ensures var s := After(c, Boot(row), events); var s' := Next(c, s, TickPublishes);
      && LastSight(s.log, k)
      && (s'.nextId > s.nextId <==> Recovers(c, s.log[k]) && !s.inFlight && !s.stopped)
      && (s'.tick == InsertingAlert <==> Alarms(c, s.log[k]))
  {
    RunRight(c, Boot(row), events);
    var s := After(c, Boot(row), events);
    k :| LastSight(s.log, k) && Follows(c, s.log[k], s.tick.next);
  }

  // ---------- RECOVERING outlives every tick ----------

  /** The tick has not read a row other than RECOVERING. */
  predicate Waiting(tick: TickPc) {
    tick == Idle || tick == ReadingRow || tick == RereadingRow || tick == ReadingBalance
  }

  predicate Finishes(e: Event) { e.FinishUpserts? || e.FinishUpsertsAlert? }

  /** Until a procedure writes its result, RECOVERING stays, through ticks, failures, stops and crashes. */
  lemma {:induction false} RecoveringStays(c: Config, s: State, events: seq<Event>)
    requires s.row == Recovering && Waiting(s.tick) && Runs(c, s, events)
    requires forall i :: 0 <= i < |events| ==> !Finishes(events[i])
    ensures After(c, s, events).row == Recovering && Waiting(After(c, s, events).tick)
    decreases |events|
  {
    if events != [] {
      assert !Finishes(events[0]);
      RecoveringStays(c, Next(c, s, events[0]), events[1..]);
    }
  }

  /** A tick that reads RECOVERING while a recovery is in flight changes nothing. */
  lemma TickLeavesRecovery(c: Config, s: State)
    requires s.tick == ReadingRow && s.row == Recovering && s.inFlight
    ensures Next(c, s, TickReads) == s.(tick := Idle)
  {
  }

  // ---------- the steps of a recovery ----------

  function Rank(work: Work): nat {
    match work
    case Reconcile => 0
    case Consolidate => 1
    case Split => 2
    case Refill => 3
  }

  predicate IsStepOf(e: Entry, id: nat) { (e.Started? || e.Ended? || e.TimedOut?) && e.id == id }

  /** The last thing a recovery did. */
  function LastOf(log: seq<Entry>, id: nat): Option<Entry> {
    if log == [] then None
    else if IsStepOf(log[|log| - 1], id) then Some(log[|log| - 1])
    else LastOf(log[..|log| - 1], id)
  }

  /** How often it has begun a work. */
  function Starts(log: seq<Entry>, id: nat, work: Work): nat {
    if log == [] then 0
    else Starts(log[..|log| - 1], id, work) + if log[|log| - 1] == Started(id, work) then 1 else 0
  }

  /** The last attempt left nothing to retry: it returned, or it was the last one allowed. */
  predicate Settled(c: Config, log: seq<Entry>, e: Entry)
    requires e.Ended?
  {
    e.ok || Starts(log, e.id, e.work) >= c.attempts
  }

  /**
   Reconcile first; a failed work again while attempts are left; after a settled one the next; the
   final figures after the last one has settled or after a timeout, which nothing else follows.
   */
  predicate Fits(c: Config, log: seq<Entry>, e: Entry) {
    match e
    case Started(id, work) =>
      (match LastOf(log, id)
       case None => work == Reconcile
       case Some(last) =>
         && last.Ended?
         && if Settled(c, log, last) then Rank(work) == Rank(last.work) + 1 else work == last.work)
    case Ended(id, work, _) => LastOf(log, id) == Some(Started(id, work))
    case TimedOut(id, work) => LastOf(log, id) == Some(Started(id, work))
    case Read(id, _, _) => Finished(c, log, id)
    case _ => true
  }

  predicate Finished(c: Config, log: seq<Entry>, id: nat) {
    match LastOf(log, id)
    case None => false
    case Some(last) => last.TimedOut? || (last.Ended? && last.work == Refill && Settled(c, log, last))
  }

  ghost predicate WellStepped(c: Config, log: seq<Entry>) {
    forall j :: 0 <= j < |log| ==> Fits(c, log[..j], log[j])
  }

  lemma SteppedSnoc(c: Config, log: seq<Entry>, e: Entry)
    ensures WellStepped(c, log + [e]) <==> WellStepped(c, log) && Fits(c, log, e)
  {
    var all := log + [e];
    assert all[..|log|] == log && all[|log|] == e;
    forall j | 0 <= j < |log| ensures all[..j] == log[..j] && all[j] == log[j] {}
    if WellStepped(c, all) {
      forall j | 0 <= j < |log| ensures Fits(c, log[..j], log[j]) { assert Fits(c, all[..j], all[j]); }
      assert Fits(c, all[..|log|], all[|log|]);
    }
  }

  lemma OneMore(log: seq<Entry>, e: Entry, id: nat)
    ensures LastOf(log + [e], id) == if IsStepOf(e, id) then Some(e) else LastOf(log, id)
    ensures forall w :: Starts(log + [e], id, w) == Starts(log, id, w) + if e == Started(id, w) then 1 else 0
  {
    assert (log + [e])[..|log|] == log;
  }

  function Tries(c: Config): nat { if c.attempts < 1 then 1 else c.attempts }

  /** Works before the current one have had their tries, works after it none. */
  ghost predicate Climbed(c: Config, log: seq<Entry>, id: nat) {
    match LastOf(log, id)
    case None => forall w :: Starts(log, id, w) == 0
    case Some(last) =>
      && IsStepOf(last, id)
      && (forall w :: Rank(w) <= Rank(last.work) ==> 1 <= Starts(log, id, w) <= Tries(c))
      && (forall w :: Rank(w) > Rank(last.work) ==> Starts(log, id, w) == 0)
  }

  /** In such a history, the works climb in order and each is tried at least once and at most as often as allowed. */
  lemma {:induction false} SteppedClimbs(c: Config, log: seq<Entry>, id: nat)
    requires WellStepped(c, log)
    ensures Climbed(c, log, id)
    decreases |log|
  {
    if log != [] {
      var front, e := log[..|log| - 1], log[|log| - 1];
      assert front + [e] == log;
      SteppedSnoc(c, front, e);
      SteppedClimbs(c, front, id);
      OneMore(front, e, id);
      if e.Started? && e.id == id {
        RanksDiffer();
        assert Climbed(c, front, id) && Fits(c, front, e);
      }
    }
  }

  lemma RanksDiffer()
    ensures forall v, w :: Rank(v) == Rank(w) ==> v == w
  {
  }

  // ---------- and runs have such a history ----------

  ghost predicate ProcRight(c: Config, log: seq<Entry>, id: nat, pc: RecPc) {
    && (pc.InStep? ==> LastOf(log, id) == Some(Started(id, pc.work)) && Starts(log, id, pc.work) == pc.attempt)
    && (pc == FinalBalance ==> Finished(c, log, id))
  }

  ghost predicate StepsRight(c: Config, s: State) {
    && WellStepped(c, s.log)
    && (forall id :: id in s.procs ==> id < s.nextId && ProcRight(c, s.log, id, s.procs[id]))
    && (forall id :: id >= s.nextId ==> LastOf(s.log, id) == None)
  }

  /** Nothing in the entry concerns the steps of a recovery or its final figures. */
  predicate Beside(e: Entry) { !e.Started? && !e.Ended? && !e.TimedOut? && !e.Read? }

  lemma BesideKeeps(c: Config, s: State, e: Entry)
    requires StepsRight(c, s) && Beside(e)
    ensures StepsRight(c, Noted(s, e))
  {
    SteppedSnoc(c, s.log, e);
    forall id { OneMore(s.log, e, id); }
    forall id | id in s.procs ensures ProcRight(c, s.log + [e], id, s.procs[id]) { FinishedOn(c, s.log, e, id); }
  }

  lemma FinishedOn(c: Config, log: seq<Entry>, e: Entry, id: nat)
    requires !IsStepOf(e, id)
    ensures Finished(c, log + [e], id) <==> Finished(c, log, id)
    ensures LastOf(log + [e], id) == LastOf(log, id)
  {
    OneMore(log, e, id);
    if LastOf(log, id).Some? { LastIsOf(log, id); }
  }

  lemma {:induction false} LastIsOf(log: seq<Entry>, id: nat)
    requires LastOf(log, id).Some?
    ensures IsStepOf(LastOf(log, id).value, id)
  {
    if !IsStepOf(log[|log| - 1], id) { LastIsOf(log[..|log| - 1], id); }
  }

  /** Another procedure's entry. */
  lemma OtherProc(c: Config, log: seq<Entry>, e: Entry, id: nat, pc: RecPc)
    requires ProcRight(c, log, id, pc) && !IsStepOf(e, id)
    ensures ProcRight(c, log + [e], id, pc)
  {
    OneMore(log, e, id);
    FinishedOn(c, log, e, id);
  }

  /** A fitting step of procedure `id`, which moves to `pc`. */
  lemma StepFits(c: Config, s: State, id: nat, e: Entry, pc: RecPc)
    requires StepsRight(c, s) && id < s.nextId && Fits(c, s.log, e) && !Beside(e) && e.id == id
    requires ProcRight(c, s.log + [e], id, pc)
    ensures StepsRight(c, s.(procs := s.procs[id := pc], log := s.log + [e]))
  {
    SteppedSnoc(c, s.log, e);
    forall x | x in s.procs && x != id ensures ProcRight(c, s.log + [e], x, s.procs[x]) {
      OtherProc(c, s.log, e, x, s.procs[x]);
    }
    forall x { OneMore(s.log, e, x); }
  }

  lemma MovesRight(c: Config, s: State, id: nat, pc: RecPc)
    requires StepsRight(c, s) && id < s.nextId && ProcRight(c, s.log, id, pc)
    ensures StepsRight(c, s.(procs := s.procs[id := pc]))
  {
  }

  lemma AttemptRight(c: Config, s: State, id: nat, work: Work, attempt: nat)
    requires StepsRight(c, s) && id < s.nextId && Fits(c, s.log, Started(id, work))
    requires Starts(s.log, id, work) + 1 == attempt
    ensures StepsRight(c, Attempt(s, id, work, attempt))
  {
    if s.stopped {
      MovesRight(c, s, id, Leaving);
    } else {
      OneMore(s.log, Started(id, work), id);
      StepFits(c, s, id, Started(id, work), InStep(work, attempt));
    }
  }

  lemma BeginFinishRight(c: Config, s: State, id: nat)
    requires StepsRight(c, s) && id < s.nextId && Finished(c, s.log, id)
    ensures StepsRight(c, BeginFinish(s, id))
  {
    MovesRight(c, s, id, if s.stopped then Leaving else FinalBalance);
  }

  lemma StartRight(c: Config, s: State)
    requires StepsRight(c, s)
    ensures StepsRight(c, StartRecovery(s))
  {
    var id := s.nextId;
    SteppedClimbs(c, s.log, id);
    var s1 := s.(procs := s.procs[id := Leaving], nextId := id + 1);
    AttemptRight(c, s1, id, Reconcile, 1);
    var s2 := s.(procs := s.procs[id := InStep(Reconcile, 1)], nextId := id + 1);
    assert s1.procs[id := InStep(Reconcile, 1)] == s2.procs[id := InStep(Reconcile, 1)];
    assert s1.procs[id := Leaving] == s2.procs[id := Leaving];
  }

  /** The end of an attempt, then a retry, the next work or the final figures. */
  lemma EndedRight(c: Config, s: State, id: nat, ok: bool)
    requires StepsRight(c, s) && id in s.procs && s.procs[id].InStep?
    ensures StepsRight(c, Next(c, s, if ok then StepOk(id) else StepFails(id)))
  {
    var pc := s.procs[id];
    OneMore(s.log, Ended(id, pc.work, ok), id);
    EndNoted(c, s, id, ok);
    var s1 := Noted(s, Ended(id, pc.work, ok));
    if !ok && pc.attempt < c.attempts { GoesOn(c, s1, id, pc.work, pc.attempt + 1); } else { AdvanceRight(c, s1, id); }
  }

  ghost predicate AtRest(c: Config, s: State, id: nat) {
    StepsRight(c, s.(procs := s.procs[id := Leaving])) && id < s.nextId
  }

  lemma GoesOn(c: Config, s: State, id: nat, work: Work, attempt: nat)
    requires AtRest(c, s, id) && Fits(c, s.log, Started(id, work)) && Starts(s.log, id, work) + 1 == attempt
    ensures StepsRight(c, Attempt(s, id, work, attempt))
  {
    AttemptRight(c, s.(procs := s.procs[id := Leaving]), id, work, attempt);
    SameMove(s, id, InStep(work, attempt));
  }

  lemma AdvanceRight(c: Config, s: State, id: nat)
    requires AtRest(c, s, id) && LastOf(s.log, id).Some? && LastOf(s.log, id).value.Ended?
    requires Settled(c, s.log, LastOf(s.log, id).value)
    ensures StepsRight(c, Advance(s, id, LastOf(s.log, id).value.work))
  {
    var work := LastOf(s.log, id).value.work;
    LastIsOf(s.log, id);
    SteppedClimbs(c, s.log, id);
    if NextWork(work).Some? {
      GoesOn(c, s, id, NextWork(work).value, 1);
    } else {
      BeginFinishRight(c, s.(procs := s.procs[id := Leaving]), id);
      SameMove(s, id, FinalBalance);
    }
  }

  lemma SameMove(s: State, id: nat, pc: RecPc)
    ensures s.procs[id := Leaving][id := pc] == s.procs[id := pc]
    ensures s.procs[id := Leaving][id := Leaving] == s.procs[id := Leaving]
  {
  }

  lemma EndNoted(c: Config, s: State, id: nat, ok: bool)
    requires StepsRight(c, s) && id in s.procs && s.procs[id].InStep?
    ensures var e := Ended(id, s.procs[id].work, ok);
      StepsRight(c, Noted(s, e).(procs := s.procs[id := Leaving]))
  {
    StepFits(c, s, id, Ended(id, s.procs[id].work, ok), Leaving);
  }

  lemma TimeoutRight(c: Config, s: State, id: nat)
    requires StepsRight(c, s) && id in s.procs && s.procs[id].InStep?
    ensures StepsRight(c, Next(c, s, StepTimesOut(id)))
  {
    var e := TimedOut(id, s.procs[id].work);
    OneMore(s.log, e, id);
    StepFits(c, s, id, e, if s.stopped then Leaving else FinalBalance);
  }

  lemma ReadRight(c: Config, s: State, id: nat, balance: int, count: nat)
    requires StepsRight(c, s) && Enabled(s, FinishReads(id, balance, count))
    ensures StepsRight(c, Next(c, s, FinishReads(id, balance, count)))
  {
    var s' := Next(c, s, FinishReads(id, balance, count));
    StepFits(c, s, id, Read(id, balance, count), s'.procs[id]);
  }

  lemma TickRightSteps(c: Config, s: State, e: Event)
    requires StepsRight(c, s) && Enabled(s, e) && IsTickEvent(e)
    ensures StepsRight(c, Next(c, s, e))
  {
    if e.TickSkips? { BesideKeeps(c, s, Skipped); }
    else if e.TickDecides? { BesideKeeps(c, s, Saw(s.tick.previous, e.balance, e.count)); }
    else if e.TickCaches? { BesideKeeps(c, s, TickCached(s.tick.state)); }
    else if e.TickReadsBalance? { if !s.stopped { StartRight(c, s.(tick := Idle)); } }
    else if e.TickPublishes? && s.tick.next == StartsRecovery && !s.inFlight && !s.stopped {
      StartRight(c, s.(tick := Idle, inFlight := true));
    }
  }

  lemma FinishRight(c: Config, s: State, e: Event)
    requires StepsRight(c, s) && Enabled(s, e) && !IsTickEvent(e)
    requires !e.StepOk? && !e.StepFails? && !e.StepTimesOut? && !e.FinishReads?
    ensures StepsRight(c, Next(c, s, e))
  {
    match e
    case FinishUpserts(id) => MovesRight(c, s, id, FinalCache(s.procs[id].state));
    case FinishFails(id) => MovesRight(c, s, id, Leaving);
    case FinishCaches(id) =>
      MovesRight(c, s, id, FinalPublish);
      BesideKeeps(c, s.(procs := s.procs[id := FinalPublish]), FinishCached(id, s.procs[id].state));
    case FinishPublishes(id) => MovesRight(c, s, id, FinalAlertInsert);
    case FinishInsertsAlert(id) => MovesRight(c, s, id, FinalAlertUpsert);
    case FinishUpsertsAlert(id) => MovesRight(c, s, id, Leaving);
    case FinishAlertFails(id) => MovesRight(c, s, id, Leaving);
    case _ =>
  }

  lemma {:induction false} RunSteps(c: Config, s: State, events: seq<Event>)
    requires StepsRight(c, s) && Runs(c, s, events)
    ensures StepsRight(c, After(c, s, events))
    decreases |events|
  {
    if events != [] {
      var e := events[0];
      if IsTickEvent(e) { TickRightSteps(c, s, e); }
      else if e.StepOk? || e.StepFails? { EndedRight(c, s, e.id, e.StepOk?); }
      else if e.StepTimesOut? { TimeoutRight(c, s, e.id); }
      else if e.FinishReads? { ReadRight(c, s, e.id, e.balance, e.count); }
      else { FinishRight(c, s, e); }
      RunSteps(c, Next(c, s, e), events[1..]);
    }
  }

  /** In every run each recovery takes its steps by the rule, retries, timeouts and crashes included. */
  lemma RecoverySteps(c: Config, row: Health, events: seq<Event>)
    requires Runs(c, Boot(row), events)
    ensures WellStepped(c, After(c, Boot(row), events).log)
  {
    RunSteps(c, Boot(row), events);
  }

  lemma SteppedUpto(c: Config, log: seq<Entry>, j: nat)
    requires WellStepped(c, log) && j <= |log|
    ensures WellStepped(c, log[..j])
  {
    forall i | 0 <= i < j ensures Fits(c, log[..j][..i], log[..j][i]) {
      assert log[..j][..i] == log[..i];
    }
  }

  /** A recovery that reads its final figures without a timeout has tried all four works, each within the bound. */
  lemma AllWorksTried(c: Config, row: Health, events: seq<Event>, j: nat, work: Work)
    requires Runs(c, Boot(row), events)
    requires var log := After(c, Boot(row), events).log;
      j < |log| && log[j].Read? && forall w :: TimedOut(log[j].id, w) !in log[..j]
    ensures var log := After(c, Boot(row), events).log; 1 <= Starts(log[..j], log[j].id, work) <= Tries(c)
  {
    RecoverySteps(c, row, events);
    var log := After(c, Boot(row), events).log;
    SteppedUpto(c, log, j);
    SteppedClimbs(c, log[..j], log[j].id);
    LastIsThere(log[..j], log[j].id);
    assert Fits(c, log[..j], log[j]);
  }

  lemma {:induction false} LastIsThere(log: seq<Entry>, id: nat)
    ensures LastOf(log, id).Some? ==> LastOf(log, id).value in log && IsStepOf(LastOf(log, id).value, id)
  {
    if log != [] { LastIsThere(log[..|log| - 1], id); }
  }

  /** No recovery goes back to an earlier work. */
  lemma WorksInOrder(c: Config, row: Health, events: seq<Event>, i: nat, j: nat)
    requires Runs(c, Boot(row), events)
    requires var log := After(c, Boot(row), events).log;
      i < j < |log| && log[i].Started? && log[j].Started? && log[i].id == log[j].id
    ensures var log := After(c, Boot(row), events).log; Rank(log[i].work) <= Rank(log[j].work)
  {
    RecoverySteps(c, row, events);
    var log := After(c, Boot(row), events).log;
    SteppedUpto(c, log, j);
    SteppedClimbs(c, log[..j], log[j].id);
    StartCounts(log[..j], i);
    assert Fits(c, log[..j], log[j]);
  }

  lemma {:induction false} StartCounts(log: seq<Entry>, i: nat)
    requires i < |log| && log[i].Started?
    ensures Starts(log, log[i].id, log[i].work) > 0
  {
    if i < |log| - 1 { StartCounts(log[..|log| - 1], i); }
  }
}
