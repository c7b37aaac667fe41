/**
 Treasury recovery as a protocol (`funding-state.ts`): ticks and recovery procedures run
 concurrently in one process and every `await` is a step boundary, so any interleaving of the
 events below is a run. Balances, failures and timeouts are the environment's choice.
 */
module FundingRecovery {
  import opened Options

  datatype Health = Healthy | Low | Dry | Recovering

  /** Thresholds and the retry bound of one recovery step. */
  datatype Config = Config(dryThreshold: int, lowThreshold: int, attempts: nat)

  function Classify(c: Config, balance: int, count: nat, previous: Health, inFlight: bool): Health {
    if previous == Recovering && inFlight then Recovering
    else if count == 0 || balance < c.dryThreshold then Dry
    else if balance < c.lowThreshold then Low
    else Healthy
  }

  // ---------- program counters ----------

  datatype Then = Ends | Alerts | StartsRecovery

  /** Where a tick waits. */
  datatype TickPc =
    | Idle
    | ReadingRow
    | RereadingRow                      // resume claimed, waiting for the fresh read
    | ReadingBalance                    // resume confirmed, waiting for the balance
    | Evaluating(previous: Health)      // chain and balance lookups of an ordinary tick
    | Upserting(state: Health, next: Then)
    | Caching(state: Health, next: Then)
    | Publishing(next: Then)
    | InsertingAlert
    | UpsertingAlert

  datatype Work = Reconcile | Consolidate | Split | Refill

  /** Where a recovery procedure waits. */
  datatype RecPc =
    | InStep(work: Work, attempt: nat)
    | FinalBalance
    | FinalUpsert(state: Health)
    | FinalCache(state: Health)
    | FinalPublish
    | FinalAlertInsert
    | FinalAlertUpsert
    | Leaving                           // returned, the flag not yet cleared

  /** The history: spending steps, what finishRecovery read and cached, and what ticks saw and cached. */
  datatype Entry =
    | Started(id: nat, work: Work)
    | Ended(id: nat, work: Work, ok: bool)              // an attempt returned or failed in time
    | TimedOut(id: nat, work: Work)
    | Read(id: nat, balance: int, count: nat)
    | FinishCached(id: nat, state: Health)
    | TickCached(state: Health)
    | Saw(previous: Health, balance: int, count: nat)   // the figures an ordinary tick decides on
    | Skipped                                           // it stays DRY without deciding

  /** `row` is persisted; everything else dies with the process, except the history. */
  datatype State = State(
    row: Health, cached: Option<Health>, stopped: bool, inFlight: bool, tick: TickPc,
    procs: map<nat, RecPc>, nextId: nat, log: seq<Entry>)

  function Boot(row: Health): State { State(row, None, false, false, Idle, map[], 0, []) }

  datatype Event =
    | TickStarts
    | TickReads
    | TickFails
    | TickRereads
    | TickReadsBalance
    | TickSkips
    | TickDecides(balance: int, count: nat)
    | TickUpserts
    | TickCaches
    | TickPublishes
    | TickInsertsAlert(limited: bool)
    | TickUpsertsAlert
    | StepOk(id: nat)
    | StepFails(id: nat)
    | StepTimesOut(id: nat)
    | FinishReads(id: nat, balance: int, count: nat)
    | FinishUpserts(id: nat)
    | FinishFails(id: nat)
    | FinishCaches(id: nat)
    | FinishPublishes(id: nat)
    | FinishInsertsAlert(id: nat)
    | FinishUpsertsAlert(id: nat)
    | FinishAlertFails(id: nat)
    | Leaves(id: nat)
    | Stop
    | Start
    | Crash

  predicate At(s: State, id: nat, pc: RecPc) { id in s.procs && s.procs[id] == pc }

  predicate Enabled(s: State, e: Event) {
    match e
    case TickStarts => s.tick == Idle && !s.stopped
    case TickReads => s.tick == ReadingRow
    case TickFails => s.tick != Idle
    case TickRereads => s.tick == RereadingRow
    case TickReadsBalance => s.tick == ReadingBalance
    case TickSkips => s.tick == Evaluating(Dry)
    case TickDecides(_, _) => s.tick.Evaluating?
    case TickUpserts => s.tick.Upserting?
    case TickCaches => s.tick.Caching?
    case TickPublishes => s.tick.Publishing?
    case TickInsertsAlert(_) => s.tick == InsertingAlert
    case TickUpsertsAlert => s.tick == UpsertingAlert
    case StepOk(id) => id in s.procs && s.procs[id].InStep?
    case StepFails(id) => id in s.procs && s.procs[id].InStep?
    case StepTimesOut(id) => id in s.procs && s.procs[id].InStep?
    case FinishReads(id, _, _) => At(s, id, FinalBalance)
    case FinishUpserts(id) => id in s.procs && s.procs[id].FinalUpsert?
    case FinishFails(id) => id in s.procs && (s.procs[id].FinalUpsert? || s.procs[id].FinalCache?)
    case FinishCaches(id) => id in s.procs && s.procs[id].FinalCache?
    case FinishPublishes(id) => At(s, id, FinalPublish)
    case FinishInsertsAlert(id) => At(s, id, FinalAlertInsert)
    case FinishUpsertsAlert(id) => At(s, id, FinalAlertUpsert)
    case FinishAlertFails(id) => At(s, id, FinalAlertUpsert)
    case Leaves(id) => At(s, id, Leaving)
    case Stop => true
    case Start => true
    case Crash => true
  }

  // ---------- steps ----------

  function Noted(s: State, e: Entry): State { s.(log := s.log + [e]) }

  /** `startRecovery`: runs up to its first await, the first attempt of the first step. */
  function StartRecovery(s: State): State {
    Attempt(s.(procs := s.procs[s.nextId := InStep(Reconcile, 1)], nextId := s.nextId + 1), s.nextId, Reconcile, 1)
  }

  /** `runRecovery` has returned; its `finally` runs one step later. */
  function EndRecovery(s: State, id: nat): State { s.(procs := s.procs[id := Leaving]) }

  /** The `finally`: the procedure is gone and the flag is cleared. */
  function ClearFlag(s: State, id: nat): State { s.(procs := s.procs - {id}, inFlight := false) }

  /** Each attempt first looks at `stopped`; a stop leaves the row as it is. */
  function Attempt(s: State, id: nat, work: Work, attempt: nat): State {
    if s.stopped then EndRecovery(s, id)
    else s.(procs := s.procs[id := InStep(work, attempt)], log := s.log + [Started(id, work)])
  }

  function BeginFinish(s: State, id: nat): State {
    if s.stopped then EndRecovery(s, id) else s.(procs := s.procs[id := FinalBalance])
  }

  function NextWork(work: Work): Option<Work> {
    match work
    case Reconcile => Some(Consolidate)
    case Consolidate => Some(Split)
    case Split => Some(Refill)
    case Refill => None
  }

  /** A step that returned, or ran out of retries, gives way to the next one. */
  function Advance(s: State, id: nat, work: Work): State {
    if NextWork(work).Some? then Attempt(s, id, NextWork(work).value, 1) else BeginFinish(s, id)
  }

  /** What an ordinary tick persists and does next, from the state it read and the figures it saw. */
  function Decide(c: Config, previous: Health, balance: int, count: nat, inFlight: bool): TickPc {
    var next := Classify(c, balance, count, previous, inFlight);
    if next == previous then Upserting(next, Ends)
    else if next == Dry then Upserting(Dry, Alerts)
    else if previous == Dry && (next == Low || next == Healthy) then Upserting(Recovering, StartsRecovery)
    else Upserting(next, if next == Low then Alerts else Ends)
  }

  function CachedOr(s: State): Health { if s.cached.Some? then s.cached.value else Healthy }

  function Next(c: Config, s: State, e: Event): State
    requires Enabled(s, e)
  {
    match e
    case TickStarts => s.(tick := ReadingRow)
    case TickReads =>
      if s.row != Recovering then s.(tick := Evaluating(s.row))
      else if s.inFlight || s.stopped then s.(tick := Idle)
      else s.(tick := RereadingRow, inFlight := true)
    case TickFails =>
      if s.tick == RereadingRow || s.tick == ReadingBalance then s.(tick := Idle, inFlight := false)
      else s.(tick := Idle)
    case TickRereads =>
      if s.row != Recovering || s.stopped then s.(tick := Idle, inFlight := false) else s.(tick := ReadingBalance)
    case TickReadsBalance =>
      if s.stopped then s.(tick := Idle, inFlight := false) else StartRecovery(s.(tick := Idle))
    case TickSkips => s.(tick := Upserting(Dry, Ends), log := s.log + [Skipped])
    case TickDecides(balance, count) =>
      s.(tick := Decide(c, s.tick.previous, balance, count, s.inFlight),
         log := s.log + [Saw(s.tick.previous, balance, count)])
    case TickUpserts => s.(row := s.tick.state, tick := Caching(s.tick.state, s.tick.next))
    case TickCaches =>
      s.(cached := Some(s.tick.state), tick := Publishing(s.tick.next), log := s.log + [TickCached(s.tick.state)])
    case TickPublishes =>
      if s.tick.next == Alerts then s.(tick := InsertingAlert)
      else if s.tick.next == StartsRecovery && !s.inFlight && !s.stopped
      then StartRecovery(s.(tick := Idle, inFlight := true))
      else s.(tick := Idle)
    case TickInsertsAlert(limited) => s.(tick := if limited then Idle else UpsertingAlert)
    case TickUpsertsAlert => s.(row := CachedOr(s), tick := Idle)
    case StepOk(id) => Advance(Noted(s, Ended(id, s.procs[id].work, true)), id, s.procs[id].work)
    case StepFails(id) =>
      var pc := s.procs[id];
      var s' := Noted(s, Ended(id, pc.work, false));
      if pc.attempt < c.attempts then Attempt(s', id, pc.work, pc.attempt + 1) else Advance(s', id, pc.work)
    case StepTimesOut(id) => BeginFinish(Noted(s, TimedOut(id, s.procs[id].work)), id)
    case FinishReads(id, balance, count) =>
      s.(procs := s.procs[id := FinalUpsert(Classify(c, balance, count, Healthy, s.inFlight))],
         log := s.log + [Read(id, balance, count)])
    case FinishUpserts(id) =>
      s.(row := s.procs[id].state, procs := s.procs[id := FinalCache(s.procs[id].state)])
    case FinishFails(id) => EndRecovery(s, id)
    case FinishCaches(id) =>
      s.(cached := Some(s.procs[id].state), procs := s.procs[id := FinalPublish],
         log := s.log + [FinishCached(id, s.procs[id].state)])
    case FinishPublishes(id) => s.(procs := s.procs[id := FinalAlertInsert])
    case FinishInsertsAlert(id) => s.(procs := s.procs[id := FinalAlertUpsert])
    case FinishUpsertsAlert(id) => EndRecovery(s.(row := CachedOr(s)), id)
    case FinishAlertFails(id) => EndRecovery(s, id)
    case Leaves(id) => ClearFlag(s, id)
    case Stop => s.(stopped := true)
    case Start => s.(stopped := false)
    case Crash => s.(cached := None, stopped := false, inFlight := false, tick := Idle, procs := map[])
  }

  ghost predicate Runs(c: Config, s: State, events: seq<Event>)
    decreases |events|
  {
    events != [] ==> Enabled(s, events[0]) && Runs(c, Next(c, s, events[0]), events[1..])
  }

  function After(c: Config, s: State, events: seq<Event>): State
    requires Runs(c, s, events)
    decreases |events|
  {
    if events == [] then s else After(c, Next(c, s, events[0]), events[1..])
  }

  // ---------- invariants ----------

  predicate Claiming(s: State) { s.tick == RereadingRow || s.tick == ReadingBalance }

  /** The flag is up exactly while a tick has claimed the resume or the one procedure runs. */
  ghost predicate OneRecovery(s: State) {
    && |s.procs| <= 1
    && (s.inFlight <==> Claiming(s) || s.procs != map[])
    && !(Claiming(s) && s.procs != map[])
  }

  ghost predicate IdsKnown(s: State) {
    && (forall id :: id in s.procs ==> id < s.nextId)
    && (forall i :: 0 <= i < |s.log| && (s.log[i].Started? || s.log[i].TimedOut?) ==> s.log[i].id < s.nextId)
  }

  /** A procedure still inside a step has not timed out, and nothing starts after a timeout. */
  ghost predicate TimeoutsEnd(s: State) {
    && (forall id, i :: id in s.procs && s.procs[id].InStep? && 0 <= i < |s.log| && s.log[i].TimedOut?
          ==> s.log[i].id != id)
    && (forall i, j :: 0 <= i < j < |s.log| && s.log[i].TimedOut? && s.log[j].Started? ==> s.log[i].id != s.log[j].id)
  }

  /** What finishRecovery is about to classify is never RECOVERING. */
  ghost predicate FinalStates(s: State) {
    forall id :: id in s.procs ==>
      && (s.procs[id].FinalUpsert? ==> s.procs[id].state != Recovering)
      && (s.procs[id].FinalCache? ==> s.procs[id].state != Recovering)
  }

  ghost predicate Inv(s: State) { OneRecovery(s) && IdsKnown(s) && TimeoutsEnd(s) && FinalStates(s) }

  lemma OnlyProc(s: State, id: nat)
    requires |s.procs| <= 1 && id in s.procs
    ensures s.procs == map[id := s.procs[id]] && s.procs - {id} == map[]
  {
    assert s.procs.Keys == {id} by {
      if other: nat :| other in s.procs && other != id {
        assert {id, other} <= s.procs.Keys;
        SubsetSize({id, other}, s.procs.Keys);
      }
    }
    assert s.procs == map[id := s.procs[id]];
  }

  lemma SubsetSize(a: set<nat>, b: set<nat>)
    requires a <= b
    ensures |a| <= |b|
  {
    assert b == a + (b - a);
  }

  /** Moving the one procedure to another program point. */
  lemma MoveKeeps(s: State, id: nat, pc: RecPc)
    requires Inv(s) && id in s.procs && !pc.InStep?
    requires pc.FinalUpsert? || pc.FinalCache? ==> pc.state != Recovering
    ensures Inv(s.(procs := s.procs[id := pc]))
  {
    OnlyProc(s, id);
    assert s.procs[id := pc] == map[id := pc];
  }

  lemma EndKeeps(s: State, id: nat)
    requires Inv(s) && id in s.procs
    ensures Inv(EndRecovery(s, id))
  {
    MoveKeeps(s, id, Leaving);
  }

  lemma ClearKeeps(s: State, id: nat)
    requires Inv(s) && id in s.procs
    ensures Inv(ClearFlag(s, id))
  {
    OnlyProc(s, id);
  }

  lemma AttemptKeeps(s: State, id: nat, work: Work, attempt: nat)
    requires Inv(s) && id in s.procs && s.procs[id].InStep?
    ensures Inv(Attempt(s, id, work, attempt))
  {
    OnlyProc(s, id);
    if s.stopped {
      EndKeeps(s, id);
    } else {
      assert s.procs[id := InStep(work, attempt)] == map[id := InStep(work, attempt)];
    }
  }

  lemma BeginFinishKeeps(s: State, id: nat)
    requires Inv(s) && id in s.procs
    ensures Inv(BeginFinish(s, id))
  {
    if s.stopped { EndKeeps(s, id); } else { MoveKeeps(s, id, FinalBalance); }
  }

  lemma AdvanceKeeps(s: State, id: nat, work: Work)
    requires Inv(s) && id in s.procs && s.procs[id].InStep?
    ensures Inv(Advance(s, id, work))
  {
    if NextWork(work).Some? { AttemptKeeps(s, id, NextWork(work).value, 1); } else { BeginFinishKeeps(s, id); }
  }

  lemma StartKeeps(s: State)
    requires IdsKnown(s) && TimeoutsEnd(s) && s.inFlight && s.procs == map[] && !Claiming(s) && !s.stopped
    ensures Inv(StartRecovery(s))
  {
    var id := s.nextId;
    var s1 := s.(procs := map[id := InStep(Reconcile, 1)], nextId := id + 1);
    assert s.procs[id := InStep(Reconcile, 1)] == map[id := InStep(Reconcile, 1)];
    assert Inv(s1);
    AttemptKeeps(s1, id, Reconcile, 1);
  }

  lemma TimeOutKeeps(s: State, id: nat)
    requires Inv(s) && id in s.procs && s.procs[id].InStep?
    ensures Inv(BeginFinish(Noted(s, TimedOut(id, s.procs[id].work)), id))
  {
    OnlyProc(s, id);
    var s1 := Noted(s, TimedOut(id, s.procs[id].work));
    var pc := if s.stopped then Leaving else FinalBalance;
    assert s1.procs[id := pc] == map[id := pc];
  }

  /** Entries about reading and caching are no steps. */
  lemma QuietKeeps(s: State, e: Entry)
    requires Inv(s) && !e.Started? && !e.TimedOut?
    ensures Inv(Noted(s, e))
  {
  }

  predicate IsTickEvent(e: Event) {
    e.TickStarts? || e.TickReads? || e.TickFails? || e.TickRereads? || e.TickReadsBalance? || e.TickSkips?
    || e.TickDecides? || e.TickUpserts? || e.TickCaches? || e.TickPublishes? || e.TickInsertsAlert?
    || e.TickUpsertsAlert?
  }

  lemma TickKeeps(c: Config, s: State, e: Event)
    requires Inv(s) && Enabled(s, e) && IsTickEvent(e)
    ensures Inv(Next(c, s, e))
  {
    if e.TickCaches? || e.TickSkips? || e.TickDecides? { NoteKeeps(c, s, e); }
    else if e.TickReadsBalance? { if !s.stopped { StartKeeps(s.(tick := Idle)); } }
    else if e.TickPublishes? {
      if s.tick.next == StartsRecovery && !s.inFlight && !s.stopped {
        StartKeeps(s.(tick := Idle, inFlight := true));
      }
    } else { PlainTickKeeps(c, s, e); }
  }

  /** A tick that only adds to the history and moves on. */
  lemma NoteKeeps(c: Config, s: State, e: Event)
    requires Inv(s) && Enabled(s, e) && (e.TickCaches? || e.TickSkips? || e.TickDecides?)
    ensures Inv(Next(c, s, e))
  {
    match e
    case TickCaches => QuietKeeps(s, TickCached(s.tick.state));
    case TickSkips => QuietKeeps(s, Skipped);
    case TickDecides(balance, count) => QuietKeeps(s, Saw(s.tick.previous, balance, count));
  }

  lemma PlainTickKeeps(c: Config, s: State, e: Event)
    requires Inv(s) && Enabled(s, e) && IsTickEvent(e)
    requires !e.TickCaches? && !e.TickReadsBalance? && !e.TickPublishes? && !e.TickSkips? && !e.TickDecides?
    ensures Inv(Next(c, s, e))
  {
    var s' := Next(c, s, e);
    assert s'.procs == s.procs && s'.log == s.log && s'.nextId == s.nextId;
    assert OneRecovery(s');
  }

  lemma StepKeeps(c: Config, s: State, e: Event)
    requires Inv(s) && Enabled(s, e) && (e.StepOk? || e.StepFails? || e.StepTimesOut?)
    ensures Inv(Next(c, s, e))
  {
    var pc := s.procs[e.id];
    QuietKeeps(s, Ended(e.id, pc.work, e.StepOk?));
    var s1 := Noted(s, Ended(e.id, pc.work, e.StepOk?));
    if e.StepTimesOut? { TimeOutKeeps(s, e.id); }
    else if e.StepFails? && pc.attempt < c.attempts { AttemptKeeps(s1, e.id, pc.work, pc.attempt + 1); }
    else { AdvanceKeeps(s1, e.id, pc.work); }
  }

  lemma FinishKeeps(c: Config, s: State, e: Event)
    requires Inv(s) && Enabled(s, e) && (e.FinishReads? || e.FinishUpserts? || e.FinishFails? || e.FinishCaches?)
    ensures Inv(Next(c, s, e))
  {
    match e
    case FinishReads(id, balance, count) =>
      QuietKeeps(s, Read(id, balance, count));
      MoveKeeps(s.(log := s.log + [Read(id, balance, count)]), id,
                FinalUpsert(Classify(c, balance, count, Healthy, s.inFlight)));
    case FinishUpserts(id) => MoveKeeps(s.(row := s.procs[id].state), id, FinalCache(s.procs[id].state));
    case FinishFails(id) => EndKeeps(s, id);
    case FinishCaches(id) =>
      var e := FinishCached(id, s.procs[id].state);
      QuietKeeps(s, e);
      MoveKeeps(s.(cached := Some(s.procs[id].state), log := s.log + [e]), id, FinalPublish);
  }

  lemma NextKeeps(c: Config, s: State, e: Event)
    requires Inv(s) && Enabled(s, e)
    ensures Inv(Next(c, s, e))
  {
    if IsTickEvent(e) { TickKeeps(c, s, e); }
    else if e.StepOk? || e.StepFails? || e.StepTimesOut? { StepKeeps(c, s, e); }
    else if e.FinishReads? || e.FinishUpserts? || e.FinishFails? || e.FinishCaches? { FinishKeeps(c, s, e); }
    else if e.FinishPublishes? { MoveKeeps(s, e.id, FinalAlertInsert); }
    else if e.FinishInsertsAlert? { MoveKeeps(s, e.id, FinalAlertUpsert); }
    else if e.FinishUpsertsAlert? { EndKeeps(s.(row := CachedOr(s)), e.id); }
    else if e.FinishAlertFails? { EndKeeps(s, e.id); }
    else if e.Leaves? { ClearKeeps(s, e.id); }
  }

  lemma {:induction false} RunKeeps(c: Config, s: State, events: seq<Event>)
    requires Inv(s) && Runs(c, s, events)
    ensures Inv(After(c, s, events))
    decreases |events|
  {
    if events != [] {
      NextKeeps(c, s, events[0]);
      RunKeeps(c, Next(c, s, events[0]), events[1..]);
    }
  }

  // ---------- what runs promise ----------

  lemma MeansOne(c: Config, balance: int, count: nat, state: Health)
    requires Means(c, balance, count, state)
    ensures (state == Dry <==> count == 0 || balance < c.dryThreshold) && state != Recovering
    ensures state == Low <==> count > 0 && c.dryThreshold <= balance < c.lowThreshold
    ensures state == Healthy <==> count > 0 && c.dryThreshold <= balance && c.lowThreshold <= balance
  {
  }

  /** From any persisted state, in every interleaving: one recovery at most, and no step after a timeout. */
  lemma RecoveryIsSafe(c: Config, row: Health, events: seq<Event>)
    requires Runs(c, Boot(row), events)
    ensures var s := After(c, Boot(row), events);
      && |s.procs| <= 1
      && (forall i, j :: 0 <= i < j < |s.log| && s.log[i].TimedOut? && s.log[j].Started? ==> s.log[i].id != s.log[j].id)
  {
    RunKeeps(c, Boot(row), events);
  }

  /** What a treasury of this worth is, in as many outputs, when nothing is being recovered. */
  predicate Means(c: Config, balance: int, count: nat, state: Health) {
    match state
    case Dry => count == 0 || balance < c.dryThreshold
    case Low => count > 0 && c.dryThreshold <= balance < c.lowThreshold
    case Healthy => count > 0 && c.dryThreshold <= balance && c.lowThreshold <= balance
    case Recovering => false
  }

  /** The last state cached by anyone. */
  function LastCached(log: seq<Entry>): Option<Health> {
    if log == [] then None
    else
      var e := log[|log| - 1];
      if e.TickCached? || e.FinishCached? then Some(e.state) else LastCached(log[..|log| - 1])
  }

  predicate Classified(pc: RecPc) { pc.FinalUpsert? || pc.FinalCache? }
  predicate PastCaching(pc: RecPc) { pc.FinalPublish? || pc.FinalAlertInsert? || pc.FinalAlertUpsert? }

  ghost predicate ReadBy(c: Config, log: seq<Entry>, id: nat, state: Health) {
    exists i :: 0 <= i < |log| && log[i].Read? && log[i].id == id && Means(c, log[i].balance, log[i].count, state)
  }

  ghost predicate CachedBy(log: seq<Entry>, id: nat, m: nat) { m < |log| && log[m].FinishCached? && log[m].id == id }

  /** The history tells where every classification and the cache come from. */
  ghost predicate Told(c: Config, s: State) {
    && (s.cached.Some? ==> s.cached == LastCached(s.log))
    && (forall i :: 0 <= i < |s.log| && s.log[i].FinishCached? ==> s.log[i].state != Recovering)
    && (forall id :: id in s.procs && Classified(s.procs[id]) ==> ReadBy(c, s.log, id, s.procs[id].state))
    && (forall id :: id in s.procs && PastCaching(s.procs[id]) ==> s.cached.Some? && exists m :: CachedBy(s.log, id, m))
  }

  lemma ToldOn(c: Config, s: State, e: Entry)
    requires Told(c, s) && (e.FinishCached? ==> e.state != Recovering)
    ensures var log := s.log + [e];
      && LastCached(log) == (if e.TickCached? || e.FinishCached? then Some(e.state) else LastCached(s.log))
      && (forall i :: 0 <= i < |log| && log[i].FinishCached? ==> log[i].state != Recovering)
      && (forall id, state :: ReadBy(c, s.log, id, state) ==> ReadBy(c, log, id, state))
      && (forall id, m :: CachedBy(s.log, id, m) ==> CachedBy(log, id, m))
  {
    var log := s.log + [e];
    assert log[..|s.log|] == s.log;
    forall id, state | ReadBy(c, s.log, id, state) ensures ReadBy(c, log, id, state) {
      var i :| 0 <= i < |s.log| && s.log[i].Read? && s.log[i].id == id
          && Means(c, s.log[i].balance, s.log[i].count, state);
      assert log[i] == s.log[i];
    }
  }

  lemma EndTells(c: Config, s: State, id: nat)
    requires Told(c, s)
    ensures Told(c, EndRecovery(s, id))
  {
  }

  /** A procedure moves to a point from which nothing is claimed yet. */
  lemma PlainTells(c: Config, s: State, id: nat, pc: RecPc)
    requires Told(c, s) && !Classified(pc) && !PastCaching(pc)
    ensures Told(c, s.(procs := s.procs[id := pc]))
  {
  }

  lemma EntryTells(c: Config, s: State, e: Entry)
    requires Told(c, s) && !IsCache(e)
    ensures Told(c, Noted(s, e))
  {
    ToldOn(c, s, e);
  }

  lemma AttemptTells(c: Config, s: State, id: nat, work: Work, attempt: nat)
    requires Told(c, s)
    ensures Told(c, Attempt(s, id, work, attempt))
  {
    if s.stopped {
      EndTells(c, s, id);
    } else {
      PlainTells(c, s, id, InStep(work, attempt));
      EntryTells(c, s.(procs := s.procs[id := InStep(work, attempt)]), Started(id, work));
    }
  }

  lemma BeginFinishTells(c: Config, s: State, id: nat)
    requires Told(c, s)
    ensures Told(c, BeginFinish(s, id))
  {
    if s.stopped { EndTells(c, s, id); } else { PlainTells(c, s, id, FinalBalance); }
  }

  lemma AdvanceTells(c: Config, s: State, id: nat, work: Work)
    requires Told(c, s)
    ensures Told(c, Advance(s, id, work))
  {
    if NextWork(work).Some? { AttemptTells(c, s, id, NextWork(work).value, 1); } else { BeginFinishTells(c, s, id); }
  }

  lemma StartTells(c: Config, s: State)
    requires Told(c, s)
    ensures Told(c, StartRecovery(s))
  {
    PlainTells(c, s, s.nextId, InStep(Reconcile, 1));
    AttemptTells(c, s.(procs := s.procs[s.nextId := InStep(Reconcile, 1)], nextId := s.nextId + 1), s.nextId,
        Reconcile, 1);
  }

  lemma TickTells(c: Config, s: State, e: Event)
    requires Told(c, s) && Enabled(s, e) && IsTickEvent(e)
    ensures Told(c, Next(c, s, e))
  {
    if e.TickCaches? { ToldOn(c, s, TickCached(s.tick.state)); }
    if e.TickSkips? { ToldOn(c, s, Skipped); }
    if e.TickDecides? { ToldOn(c, s, Saw(s.tick.previous, e.balance, e.count)); }
    if e.TickReadsBalance? && !s.stopped { StartTells(c, s.(tick := Idle)); }
    if e.TickPublishes? && s.tick.next == StartsRecovery && !s.inFlight && !s.stopped {
      StartTells(c, s.(tick := Idle, inFlight := true));
    }
  }

  lemma StepTells(c: Config, s: State, e: Event)
    requires Told(c, s) && Enabled(s, e) && (e.StepOk? || e.StepFails? || e.StepTimesOut?)
    ensures Told(c, Next(c, s, e))
  {
    var pc := s.procs[e.id];
    if e.StepTimesOut? {
      EntryTells(c, s, TimedOut(e.id, pc.work));
      BeginFinishTells(c, Noted(s, TimedOut(e.id, pc.work)), e.id);
    } else {
      var s1 := Noted(s, Ended(e.id, pc.work, e.StepOk?));
      EntryTells(c, s, Ended(e.id, pc.work, e.StepOk?));
      if e.StepFails? && pc.attempt < c.attempts { AttemptTells(c, s1, e.id, pc.work, pc.attempt + 1); }
      else { AdvanceTells(c, s1, e.id, pc.work); }
    }
  }

  lemma ReadTells(c: Config, s: State, id: nat, balance: int, count: nat)
    requires Told(c, s) && Enabled(s, FinishReads(id, balance, count))
    ensures Told(c, Next(c, s, FinishReads(id, balance, count)))
  {
    var e, s' := Read(id, balance, count), Next(c, s, FinishReads(id, balance, count));
    ToldOn(c, s, e);
    assert s'.log[|s.log|] == e;
    assert ReadBy(c, s'.log, id, s'.procs[id].state);
  }

  lemma CacheTells(c: Config, s: State, id: nat)
    requires Inv(s) && Told(c, s) && Enabled(s, FinishCaches(id))
    ensures Told(c, Next(c, s, FinishCaches(id)))
  {
    var e, s' := FinishCached(id, s.procs[id].state), Next(c, s, FinishCaches(id));
    ToldOn(c, s, e);
    assert CachedBy(s'.log, id, |s.log|);
  }

  lemma NextTells(c: Config, s: State, e: Event)
    requires Inv(s) && Told(c, s) && Enabled(s, e)
    ensures Told(c, Next(c, s, e))
  {
    if IsTickEvent(e) { TickTells(c, s, e); }
    else if e.StepOk? || e.StepFails? || e.StepTimesOut? { StepTells(c, s, e); }
    else if e.FinishReads? { ReadTells(c, s, e.id, e.balance, e.count); }
    else if e.FinishCaches? { CacheTells(c, s, e.id); }
  }

  lemma {:induction false} RunTells(c: Config, s: State, events: seq<Event>)
    requires Inv(s) && Told(c, s) && Runs(c, s, events)
    ensures Inv(After(c, s, events)) && Told(c, After(c, s, events))
    decreases |events|
  {
    if events != [] {
      NextKeeps(c, s, events[0]);
      NextTells(c, s, events[0]);
      RunTells(c, Next(c, s, events[0]), events[1..]);
    }
  }

  /**
   finishRecovery persists what the figures it read really are: dry without outputs or below the dry
   threshold, low from there up to the low one, healthy above; never RECOVERING.
   */
  lemma FinishClassifies(c: Config, row: Health, events: seq<Event>, id: nat)
    requires Runs(c, Boot(row), events)
    requires Enabled(After(c, Boot(row), events), FinishUpserts(id))
    ensures var s := After(c, Boot(row), events); var after := Next(c, s, FinishUpserts(id)).row;
      exists b, n: nat ::
        && Read(id, b, n) in s.log
        && (after == Dry <==> n == 0 || b < c.dryThreshold)
        && (after == Low <==> n > 0 && c.dryThreshold <= b < c.lowThreshold)
        && (after == Healthy <==> n > 0 && c.dryThreshold <= b && c.lowThreshold <= b)
        && after != Recovering
  {
    RunTells(c, Boot(row), events);
    var s := After(c, Boot(row), events);
    assert ReadBy(c, s.log, id, s.procs[id].state);
    var i :| 0 <= i < |s.log| && s.log[i].Read? && s.log[i].id == id
        && Means(c, s.log[i].balance, s.log[i].count, s.procs[id].state);
    assert Read(id, s.log[i].balance, s.log[i].count) in s.log;
    MeansOne(c, s.log[i].balance, s.log[i].count, s.procs[id].state);
  }

  /** Its closing alert rewrites the cached state instead, which is RECOVERING exactly when the cache says so. */
  lemma FinishAlertExact(c: Config, s: State, id: nat)
    requires Enabled(s, FinishUpsertsAlert(id))
    ensures Next(c, s, FinishUpsertsAlert(id)).row == Recovering <==> s.cached == Some(Recovering)
  {
  }

  /**
   Over whole runs: the closing alert leaves RECOVERING if and only if a tick cached RECOVERING after
   this procedure cached its own classification, and nothing was cached since.
   */
  lemma FinishLeavesRecoveringExact(c: Config, row: Health, events: seq<Event>, id: nat)
    requires Runs(c, Boot(row), events)
    requires Enabled(After(c, Boot(row), events), FinishUpsertsAlert(id))
    ensures var s := After(c, Boot(row), events);
      Next(c, s, FinishUpsertsAlert(id)).row == Recovering <==>
      exists m, k :: m < k && CachedBy(s.log, id, m) && LastTickCache(s.log, k)
  {
    RunTells(c, Boot(row), events);
    var s := After(c, Boot(row), events);
    var m: nat :| CachedBy(s.log, id, m);
    if s.cached == Some(Recovering) {
      var k := LastCachedPlace(s.log);
      assert LastTickCache(s.log, k) && m < k;
    }
    if m': nat, k: nat :| m' < k && CachedBy(s.log, id, m') && LastTickCache(s.log, k) { LastCachedIs(s.log, k); }
  }

  predicate IsCache(e: Entry) { e.TickCached? || e.FinishCached? }

  /** A tick cached RECOVERING, and that is still what is cached. */
  ghost predicate LastTickCache(log: seq<Entry>, k: nat) {
    k < |log| && log[k] == TickCached(Recovering) && forall j :: k < j < |log| ==> !IsCache(log[j])
  }

  lemma {:induction false} LastCachedIs(log: seq<Entry>, k: nat)
    requires k < |log| && IsCache(log[k]) && forall j :: k < j < |log| ==> !IsCache(log[j])
    ensures LastCached(log) == Some(log[k].state)
    decreases |log|
  {
    if k < |log| - 1 { LastCachedIs(log[..|log| - 1], k); }
  }

  lemma {:induction false} LastCachedPlace(log: seq<Entry>) returns (k: nat)
    requires LastCached(log).Some?
    ensures k < |log| && IsCache(log[k]) && LastCached(log) == Some(log[k].state)
    ensures forall j :: k < j < |log| ==> !IsCache(log[j])
    decreases |log|
  {
    k := |log| - 1;
    if !IsCache(log[k]) { k := LastCachedPlace(log[..|log| - 1]); }
  }

  /** Somebody touches the switch, the process dies, or the tick's own lookup fails. */
  predicate Interrupts(e: Event) { e == Stop || e == Start || e == Crash || e == TickFails }

  /** How far a tick has come in resuming a persisted RECOVERING that nobody runs. */
  function Progress(s: State): nat {
    match s.tick
    case Idle => 0
    case ReadingRow => 1
    case RereadingRow => 2
    case ReadingBalance => 3
    case _ => 4
  }

  ghost predicate Orphaned(s: State) {
    Inv(s) && s.row == Recovering && s.procs == map[] && !s.stopped && Progress(s) < 4
  }

  /** An uninterrupted step either brings the tick further or starts the procedure. */
  lemma OrphanStep(c: Config, s: State, e: Event)
    requires Orphaned(s) && Enabled(s, e) && !Interrupts(e)
    ensures var s' := Next(c, s, e);
      && Inv(s')
      && (Progress(s) < 3 ==> Orphaned(s') && Progress(s') == Progress(s) + 1)
      && (Progress(s) == 3 ==> |s'.procs| == 1 && s'.row == Recovering && s'.inFlight)
  {
    NextKeeps(c, s, e);
  }

  /** A persisted RECOVERING with none running is resumed by the next tick that is not interrupted. */
  lemma NextTickResumes(c: Config, s: State, events: seq<Event>)
    requires Orphaned(s) && s.tick == Idle && Runs(c, s, events) && |events| == 4
    requires forall i :: 0 <= i < 4 ==> !Interrupts(events[i])
    ensures |After(c, s, events).procs| == 1 && After(c, s, events).inFlight
  {
    var e1 := events[1..];
    var e2 := e1[1..];
    var e3 := e2[1..];
    OrphanStep(c, s, events[0]);
    var s1 := Next(c, s, events[0]);
    assert e1[0] == events[1] && Runs(c, s1, e1);
    OrphanStep(c, s1, e1[0]);
    var s2 := Next(c, s1, e1[0]);
    assert e2[0] == events[2] && Runs(c, s2, e2);
    OrphanStep(c, s2, e2[0]);
    var s3 := Next(c, s2, e2[0]);
    assert e3[0] == events[3] && Runs(c, s3, e3) && e3[1..] == [];
    OrphanStep(c, s3, e3[0]);
    AfterOne(c, s3, e3);
    AfterFirst(c, s2, e2);
    AfterFirst(c, s1, e1);
    AfterFirst(c, s, events);
  }

  lemma AfterOne(c: Config, s: State, events: seq<Event>)
    requires |events| == 1 && Runs(c, s, events)
    ensures After(c, s, events) == Next(c, s, events[0])
  {
    assert events[1..] == [];
  }

  lemma AfterFirst(c: Config, s: State, events: seq<Event>)
    requires events != [] && Runs(c, s, events)
    ensures After(c, s, events) == After(c, Next(c, s, events[0]), events[1..])
  {
  }

  // ---------- a run in which the closing alert writes RECOVERING ----------

  ghost predicate Reachable(c: Config, row: Health, s: State) {
    exists events :: Runs(c, Boot(row), events) && After(c, Boot(row), events) == s
  }

  lemma BootReachable(c: Config, row: Health)
    ensures Reachable(c, row, Boot(row))
  {
    assert Runs(c, Boot(row), []);
  }

  lemma {:induction false} RunsSnoc(c: Config, s: State, events: seq<Event>, e: Event)
    requires Runs(c, s, events) && Enabled(After(c, s, events), e)
    ensures Runs(c, s, events + [e]) && After(c, s, events + [e]) == Next(c, After(c, s, events), e)
    decreases |events|
  {
    if events == [] {
      assert [e][1..] == [] && events + [e] == [e];
    } else {
      RunsSnoc(c, Next(c, s, events[0]), events[1..], e);
      assert (events + [e])[1..] == events[1..] + [e];
    }
  }

  lemma Go(c: Config, row: Health, s: State, e: Event) returns (s': State)
    requires Reachable(c, row, s) && Enabled(s, e)
    ensures s' == Next(c, s, e) && Reachable(c, row, s')
  {
    var events :| Runs(c, Boot(row), events) && After(c, Boot(row), events) == s;
    RunsSnoc(c, Boot(row), events, e);
    s' := Next(c, s, e);
  }

  /** A tick that finds a funded treasury in DRY, up to the point where it may start a recovery. */
  lemma FundedTick(c: Config, row: Health, s: State) returns (s': State)
    requires Reachable(c, row, s) && s.tick == Idle && !s.stopped && s.row == Dry && c.dryThreshold <= c.lowThreshold
    ensures Reachable(c, row, s')
    ensures s' == s.(row := Recovering, cached := Some(Recovering), tick := Publishing(StartsRecovery),
                     log := s.log + [Saw(Dry, c.lowThreshold, 1), TickCached(Recovering)])
  {
    s' := Go(c, row, s, TickStarts);
    s' := Go(c, row, s', TickReads);
    s' := Go(c, row, s', TickDecides(c.lowThreshold, 1));
    s' := Go(c, row, s', TickUpserts);
    s' := Go(c, row, s', TickCaches);
  }

  /** The first recovery starts, and its first step times out. */
  lemma ReachesFinish(c: Config) returns (s: State)
    requires c.dryThreshold <= c.lowThreshold
    ensures Reachable(c, Dry, s) && s.tick == Idle && !s.stopped && s.inFlight
    ensures s.procs == map[0 := FinalBalance]
  {
    BootReachable(c, Dry);
    s := FundedTick(c, Dry, Boot(Dry));
    assert StartRecovery(s.(tick := Idle, inFlight := true)).procs == map[0 := InStep(Reconcile, 1)];
    s := Go(c, Dry, s, TickPublishes);
    s := Go(c, Dry, s, StepTimesOut(0));
    assert s.procs == map[0 := FinalBalance];
  }

  /** Then it finds the treasury dry after all, and waits to insert its closing alert. */
  lemma ReachesClosingAlert(c: Config) returns (s: State)
    requires c.dryThreshold <= c.lowThreshold
    ensures Reachable(c, Dry, s) && s.tick == Idle && !s.stopped && s.inFlight && s.row == Dry
    ensures s.procs == map[0 := FinalAlertInsert]
  {
    s := ReachesFinish(c);
    s := Go(c, Dry, s, FinishReads(0, c.dryThreshold - 1, 1));
    assert s.procs == map[0 := FinalUpsert(Dry)];
    s := Go(c, Dry, s, FinishUpserts(0));
    assert s.procs == map[0 := FinalCache(Dry)];
    s := Go(c, Dry, s, FinishCaches(0));
    assert s.procs == map[0 := FinalPublish];
    s := Go(c, Dry, s, FinishPublishes(0));
    assert s.procs == map[0 := FinalAlertInsert];
  }

  /**
   The classification is never RECOVERING, yet finishRecovery as a whole can leave RECOVERING
   behind: while its alert is being inserted, a tick may find the treasury funded again and
   cache RECOVERING, which the alert then writes back as the procedure ends.
   */
  lemma FinishAlertCanWriteRecovering(c: Config)
    requires c.dryThreshold <= c.lowThreshold
    ensures exists s, id ::
      && Reachable(c, Dry, s) && Enabled(s, FinishUpsertsAlert(id))
      && Next(c, s, FinishUpsertsAlert(id)).row == Recovering
      && Orphaned(Next(c, Next(c, s, FinishUpsertsAlert(id)), Leaves(id)))
  {
    var s := ReachesClosingAlert(c);
    s := FundedTick(c, Dry, s);
    s := Go(c, Dry, s, TickPublishes);
    assert s.procs == map[0 := FinalAlertInsert] && s.tick == Idle;
    s := Go(c, Dry, s, FinishInsertsAlert(0));
    assert s.procs == map[0 := FinalAlertUpsert] && s.tick == Idle;
    ClosesOrphaned(c, s);
  }

  lemma ReachableIsSound(c: Config, row: Health, s: State)
    requires Reachable(c, row, s)
    ensures Inv(s)
  {
    var events :| Runs(c, Boot(row), events) && After(c, Boot(row), events) == s;
    RunKeeps(c, Boot(row), events);
  }

  lemma ClosesOrphaned(c: Config, s: State)
    requires Reachable(c, Dry, s) && s.procs == map[0 := FinalAlertUpsert] && s.tick == Idle
    requires s.cached == Some(Recovering) && !s.stopped
    ensures Enabled(s, FinishUpsertsAlert(0)) && Next(c, s, FinishUpsertsAlert(0)).row == Recovering
    ensures Orphaned(Next(c, Next(c, s, FinishUpsertsAlert(0)), Leaves(0)))
  {
    ReachableIsSound(c, Dry, s);
    NextKeeps(c, s, FinishUpsertsAlert(0));
    var s1 := Next(c, s, FinishUpsertsAlert(0));
    assert s1.procs == map[0 := Leaving];
    NextKeeps(c, s1, Leaves(0));
    assert s1.procs - {0} == map[];
  }
}
