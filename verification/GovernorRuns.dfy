/**
 Whole runs of the governed gate, over every event list with a nondecreasing clock.

 The log of a run is judged by a monitor that knows nothing of the governor's fields: it says
 when a dispatch, a halt and a trial are allowed, and counts a refusal streak from its first
 halt. The run theorems say the monitor never breaks, and read the promised bounds off it.
 */
module GovernorRuns {
  import opened Numbers
  import opened Options
  import opened SpendGovernor

  datatype Event = Send(held: bool) | Accepted | Refused(broadcastAt: Option<int>) | Read

  datatype Timed = Timed(at: int, event: Event)

  /** What the outside sees of one event. */
  datatype Decision = Nothing | Sent(sent: bool) | Shown(posture: Posture)

  function Step(c: Config, interval: int, s: Gate, e: Timed): (Gate, seq<Entry>, Decision) {
    match e.event
    case Send(held) =>
      var (s1, sent, log) := Broadcast(c, interval, s, e.at, held);
      (s1, log, Sent(sent))
    case Accepted =>
      var (g, log) := Record(c, s.gov, e.at, false, None);
      (s.(gov := g), log, Nothing)
    case Refused(broadcastAt) =>
      var (g, log) := Record(c, s.gov, e.at, true, broadcastAt);
      (s.(gov := g), log, Nothing)
    case Read =>
      var (g, posture, log) := Evaluate(c, s.gov, e.at);
      (s.(gov := g), log, Shown(posture))
  }

  function Run(c: Config, interval: int, events: seq<Timed>): (Gate, seq<Entry>)
    decreases |events|
  {
    if events == [] then (FRESH_GATE, [])
    else
      var (s, log) := Run(c, interval, events[..|events| - 1]);
      var (s1, more, _) := Step(c, interval, s, events[|events| - 1]);
      (s1, log + more)
  }

  /** Epoch milliseconds that never go back. */
  ghost predicate ClockRuns(events: seq<Timed>) {
    && (forall i :: 0 <= i < |events| ==> events[i].at > 0)
    && (forall i, j :: 0 <= i <= j < |events| ==> events[i].at <= events[j].at)
  }

  // ---------- the monitor ----------

  /**
   `halts` and `sent` count from the first halt of a streak; a streak ends when a trial clears.
   In `Halt` one trial fewer than halts has been opened; in `Trial` as many.
   */
  datatype Mon =
    | Open
    | Halt(first: int, halts: nat, sent: nat, until: int)
    | Trial(first: int, halts: nat, sent: nat, openedAt: int, inTrial: nat, closed: bool)
    | Broken

  function MonStep(c: Config, m: Mon, e: Entry): Mon {
    match (m, e)
    case (Open, Dispatched(_)) => Open
    case (Open, CurrentReject(_)) => Open
    case (Open, CurrentAccept(_)) => Open
    case (Open, HaltBegan(t, cooldown)) =>
      if cooldown == Cooldown(c, 0) then Halt(t, 1, 0, t + cooldown) else Broken
    case (Halt(_, _, _, _), CurrentReject(_)) => m
    case (Halt(_, _, _, _), CurrentAccept(_)) => m
    case (Halt(first, halts, sent, until), TrialOpened(t)) =>
      if t >= until then Trial(first, halts, sent, t, 0, false) else Broken
    case (Trial(_, _, _, _, _, _), Dispatched(_)) =>
      if !m.closed && m.inTrial < c.probeBudget then m.(sent := m.sent + 1, inTrial := m.inTrial + 1) else Broken
    case (Trial(_, _, _, _, _, _), CurrentReject(_)) => m.(closed := true)
    case (Trial(_, _, _, _, _, _), CurrentAccept(_)) => m
    case (Trial(_, _, _, _, _, _), TrialSealed(_)) => m.(closed := true)
    case (Trial(first, halts, sent, _, _, _), HaltBegan(t, cooldown)) =>
      if cooldown == Cooldown(c, halts) then Halt(first, halts + 1, sent, t + cooldown) else Broken
    case (Trial(_, _, _, _, _, _), TrialCleared(_)) => Open
    case _ => Broken
  }

  function Monitor(c: Config, log: seq<Entry>): Mon {
    if log == [] then Open else MonStep(c, Monitor(c, log[..|log| - 1]), log[|log| - 1])
  }

  lemma MonitorOne(c: Config, log: seq<Entry>, e: Entry)
    ensures Monitor(c, log + [e]) == MonStep(c, Monitor(c, log), e)
  {
    assert (log + [e])[..|log|] == log;
  }

  function SumCooldowns(c: Config, n: nat): nat {
    if n == 0 then 0 else SumCooldowns(c, n - 1) + Cooldown(c, n - 1)
  }

  /** The first cooldown is the base, each next one doubles it up to the maximum, and after sixteen it stays. */
  lemma CooldownDoubles(c: Config, j: nat)
    ensures Cooldown(c, 0) == Min(c.haltCooldownMaxMs, c.haltCooldownMs)
    ensures j < 16 ==> Cooldown(c, j + 1) == Min(c.haltCooldownMaxMs, 2 * Cooldown(c, j))
    ensures j >= 16 ==> Cooldown(c, j + 1) == Cooldown(c, j)
  {
    assert Pow2(0) == 1;
    if j < 16 { assert c.haltCooldownMs * Pow2(j + 1) == 2 * (c.haltCooldownMs * Pow2(j)); }
  }

  function Budget(c: Config): nat { if c.probeBudget < 0 then 0 else c.probeBudget }

  /** What that many trials may pass. */
  function Allowed(c: Config, trials: nat): nat {
    if trials == 0 then 0 else Allowed(c, trials - 1) + Budget(c)
  }

  lemma {:induction false} AllowedIsProduct(c: Config, trials: nat)
    ensures Allowed(c, trials) == Budget(c) * trials
  {
    if trials > 0 {
      AllowedIsProduct(c, trials - 1);
      assert Budget(c) * (trials - 1) + Budget(c) == Budget(c) * trials;
    }
  }

  /** The monitor's state, the governor's fields and the clock, kept in step. */
  ghost predicate Tracks(c: Config, g: Gov, m: Mon, now: int) {
    match m
    case Open => g.probe.None? && g.haltedUntil == 0 && g.consecutiveHalts == 0
    case Halt(first, halts, sent, until) =>
      && g.probe.None? && g.haltedUntil == until > 0
      && halts > 0 && g.consecutiveHalts == Min(halts, 16)
      && sent <= Allowed(c, halts - 1)
      && first + SumCooldowns(c, halts) <= until
      && first + SumCooldowns(c, halts - 1) <= now
    case Trial(first, halts, sent, openedAt, inTrial, closed) =>
      && g.probe.Some? && g.haltedUntil == 0
      && halts > 0 && g.consecutiveHalts == Min(halts, 16)
      && inTrial <= Budget(c) && sent <= Allowed(c, halts - 1) + inTrial
      && first + SumCooldowns(c, halts) <= openedAt <= now
      && g.probe.value.startedAt == openedAt && g.probe.value.spent == inTrial
      && (closed <==> g.probe.value.settleUntil.Some? || g.probe.value.rejected > 0)
    case Broken => false
  }

  lemma CooldownOfNextHalt(c: Config, g: Gov, now: int, halts: nat)
    requires g.consecutiveHalts == Min(halts, 16)
    ensures BeginHalt(c, g, now).1 == [HaltBegan(now, Cooldown(c, halts))]
    ensures BeginHalt(c, g, now).0.haltedUntil == now + Cooldown(c, halts)
  {
    assert Min(halts, 16) == Min(Min(halts, 16), 16);
  }

  lemma BeginHaltTracks(c: Config, g: Gov, m: Mon, log: seq<Entry>, now: int)
    requires Tracks(c, g, m, now) && !m.Halt? && now > 0 && m == Monitor(c, log)
    ensures var (g1, more) := BeginHalt(c, g, now);
      Tracks(c, g1, Monitor(c, log + more), now)
  {
    var halts := if m.Trial? then m.halts else 0;
    CooldownOfNextHalt(c, g, now, halts);
    MonitorOne(c, log, HaltBegan(now, Cooldown(c, halts)));
    assert SumCooldowns(c, halts + 1) == SumCooldowns(c, halts) + Cooldown(c, halts);
  }

  ghost predicate AllAt(log: seq<Entry>, t: int) { forall i :: 0 <= i < |log| ==> log[i].at == t }

  lemma AllAtJoined(log: seq<Entry>, first: seq<Entry>, more: seq<Entry>, t: int)
    requires AllAt(first, t) && AllAt(more, t)
    ensures AllAt(first + more, t) && log + (first + more) == log + first + more
  {
  }

  /** An evaluation left the monitor where its entries moved it, with a posture that fits. */
  ghost predicate Evaluated(c: Config, log: seq<Entry>, now: int, result: (Gov, Posture, seq<Entry>)) {
    var (g, posture, more) := result;
    var m := Monitor(c, log + more);
    && Tracks(c, g, m, now)
    && (posture == Probing ==> m.Trial? && g.probe.value.rejected == 0)
    && (posture == Normal || posture == Cautious ==> m.Open?)
    && AllAt(more, now) && |more| <= 1 && (more != [] ==> !more[0].Dispatched?)
  }

  lemma TrialEvaluated(c: Config, g: Gov, m: Mon, log: seq<Entry>, now: int)
    requires Tracks(c, g, m, now) && m.Trial? && now > 0 && m == Monitor(c, log)
    ensures Evaluated(c, log, now, EvaluateProbe(c, g, now))
  {
    if g.probe.value.rejected > 0 { BeginHaltTracks(c, g, m, log, now); } else { QuietTrialEvaluated(c, g, log, now); }
  }

  lemma QuietTrialEvaluated(c: Config, g: Gov, log: seq<Entry>, now: int)
    requires Tracks(c, g, Monitor(c, log), now) && Monitor(c, log).Trial? && g.probe.value.rejected == 0
    ensures Evaluated(c, log, now, EvaluateProbe(c, g, now))
  {
    assert log + [] == log;
    MonitorOne(c, log, TrialSealed(now));
    MonitorOne(c, log, TrialCleared(now));
  }

  lemma WindowEvaluated(c: Config, g: Gov, log: seq<Entry>, now: int)
    requires Tracks(c, g, Monitor(c, log), now) && Monitor(c, log).Open? && now > 0
    ensures Evaluated(c, log, now, EvaluateWindow(c, g, now))
  {
    assert log + [] == log;
    if Judge(c, g.observations) == Halted { BeginHaltTracks(c, g, Monitor(c, log), log, now); }
  }

  lemma HaltEvaluated(c: Config, g: Gov, log: seq<Entry>, now: int)
    requires Tracks(c, g, Monitor(c, log), now) && Monitor(c, log).Halt? && now > 0
    ensures Evaluated(c, log, now, Evaluate(c, g, now))
  {
    assert log + [] == log;
    if !c.paused && g.haltedUntil <= now { MonitorOne(c, log, TrialOpened(now)); }
  }

  lemma EvaluateTracks(c: Config, g: Gov, m: Mon, log: seq<Entry>, now: int)
    requires Tracks(c, g, m, now) && now > 0 && m == Monitor(c, log)
    ensures Evaluated(c, log, now, Evaluate(c, g, now))
  {
    var trimmed := g.(observations := Trim(g.observations, now - c.windowMs));
    if m.Halt? {
      HaltEvaluated(c, g, log, now);
    } else if c.paused {
      assert log + [] == log;
    } else if m.Trial? {
      TrialEvaluated(c, trimmed, m, log, now);
      assert Evaluate(c, g, now) == EvaluateProbe(c, trimmed, now);
    } else {
      WindowEvaluated(c, trimmed, log, now);
      assert Evaluate(c, g, now) == EvaluateWindow(c, trimmed, now);
    }
  }

  /** The evidence list is no part of what the monitor sees. */
  lemma ObserveTracks(c: Config, g: Gov, m: Mon, now: int, rejected: bool)
    requires Tracks(c, g, m, now)
    ensures Tracks(c, Observe(c, g, now, rejected), m, now)
  {
  }

  lemma RejectTracks(c: Config, g: Gov, m: Mon, now: int)
    requires Tracks(c, g, m, now)
    ensures var g1 := if g.probe.Some?
        then g.(probe := Some(g.probe.value.(rejected := g.probe.value.rejected + 1))) else g;
      Tracks(c, g1, MonStep(c, m, CurrentReject(now)), now)
  {
  }

  lemma RecordTracks(c: Config, g: Gov, m: Mon, log: seq<Entry>, now: int, rejected: bool, broadcastAt: Option<int>)
    requires Tracks(c, g, m, now) && m == Monitor(c, log)
    ensures var (g1, more) := Record(c, g, now, rejected, broadcastAt);
      && Tracks(c, g1, Monitor(c, log + more), now)
      && AllAt(more, now) && |more| <= 1 && (more != [] ==> !more[0].Dispatched?)
  {
    assert log + [] == log;
    MonitorOne(c, log, CurrentReject(now));
    MonitorOne(c, log, CurrentAccept(now));
    RejectTracks(c, g, m, now);
    var g1 := if g.probe.Some? then g.(probe := Some(g.probe.value.(rejected := g.probe.value.rejected + 1))) else g;
    if rejected { ObserveTracks(c, g1, MonStep(c, m, CurrentReject(now)), now, true); }
    else { ObserveTracks(c, g, m, now, false); }
  }

  lemma RefuseTracks(c: Config, interval: int, s: Gate, m: Mon, log: seq<Entry>, now: int)
    requires Tracks(c, s.gov, m, now) && now > 0 && m == Monitor(c, log)
    ensures var (s1, more) := Refuse(c, interval, s, now);
      && Tracks(c, s1.gov, Monitor(c, log + more), now)
      && |more| <= 1 && (forall i :: 0 <= i < |more| ==> more[i].at == now && !more[i].Dispatched?)
  {
    assert log + [] == log;
    EvaluateTracks(c, s.gov, m, log, now);
  }

  lemma SentTracks(c: Config, g: Gov, posture: Posture, log: seq<Entry>, now: int)
    requires Tracks(c, g, Monitor(c, log), now) && MaySend(c, g, posture)
    requires posture == Probing ==> Monitor(c, log).Trial? && g.probe.value.rejected == 0
    requires posture == Normal || posture == Cautious ==> Monitor(c, log).Open?
    ensures Tracks(c, NoteDispatched(g), Monitor(c, log + [Dispatched(now)]), now)
  {
    MonitorOne(c, log, Dispatched(now));
  }

  /** The rest of a broadcast after its evaluation. */
  lemma DecidedTracks(c: Config, interval: int, s: Gate, log: seq<Entry>, now: int, result: (Gov, Posture, seq<Entry>))
    requires Evaluated(c, log, now, result) && now > 0
    ensures var (g, posture, first) := result;
      if MaySend(c, g, posture) then
        var more := first + [Dispatched(now)];
        Tracks(c, NoteDispatched(g), Monitor(c, log + more), now) && AllAt(more, now)
      else
        var (s1, refusal) := Refuse(c, interval, s.(gov := g), now);
        Tracks(c, s1.gov, Monitor(c, log + (first + refusal)), now) && AllAt(first + refusal, now)
  {
    var (g, posture, first) := result;
    if MaySend(c, g, posture) {
      SentTracks(c, g, posture, log + first, now);
      AllAtJoined(log, first, [Dispatched(now)], now);
    } else {
      RefuseTracks(c, interval, s.(gov := g), Monitor(c, log + first), log + first, now);
      AllAtJoined(log, first, Refuse(c, interval, s.(gov := g), now).1, now);
    }
  }

  lemma BroadcastTracks(c: Config, interval: int, s: Gate, m: Mon, log: seq<Entry>, now: int, held: bool)
    requires Tracks(c, s.gov, m, now) && now > 0 && m == Monitor(c, log)
    ensures var (s1, sent, more) := Broadcast(c, interval, s, now, held);
      Tracks(c, s1.gov, Monitor(c, log + more), now) && AllAt(more, now)
  {
    if held {
      RefuseTracks(c, interval, s, m, log, now);
    } else {
      EvaluateTracks(c, s.gov, m, log, now);
      DecidedTracks(c, interval, s, log, now, Evaluate(c, s.gov, now));
    }
  }

  /** Letting time pass disturbs nothing. */
  lemma TimePasses(c: Config, g: Gov, m: Mon, now: int, later: int)
    requires Tracks(c, g, m, now) && now <= later
    ensures Tracks(c, g, m, later)
  {
  }

  function EndTime(events: seq<Timed>): int { if events == [] then 0 else events[|events| - 1].at }

  lemma {:induction false} RunTracks(c: Config, interval: int, events: seq<Timed>)
    requires ClockRuns(events)
    ensures var (s, log) := Run(c, interval, events);
      Tracks(c, s.gov, Monitor(c, log), EndTime(events))
    decreases |events|
  {
    if events != [] {
      var front, e := events[..|events| - 1], events[|events| - 1];
      RunTracks(c, interval, front);
      var (s, log) := Run(c, interval, front);
      var m := Monitor(c, log);
      TimePasses(c, s.gov, m, EndTime(front), e.at);
      match e.event
      case Send(held) => BroadcastTracks(c, interval, s, m, log, e.at, held);
      case Accepted => RecordTracks(c, s.gov, m, log, e.at, false, None);
      case Refused(broadcastAt) => RecordTracks(c, s.gov, m, log, e.at, true, broadcastAt);
      case Read => EvaluateTracks(c, s.gov, m, log, e.at);
    }
  }

  // ---------- the bounds ----------

  ghost predicate InOrder(log: seq<Entry>) {
    forall i, j :: 0 <= i <= j < |log| ==> log[i].at <= log[j].at
  }

  lemma {:induction false} RunInOrder(c: Config, interval: int, events: seq<Timed>)
    requires ClockRuns(events)
    ensures var log := Run(c, interval, events).1;
      InOrder(log) && forall i :: 0 <= i < |log| ==> log[i].at <= EndTime(events)
    decreases |events|
  {
    if events != [] {
      var front, e := events[..|events| - 1], events[|events| - 1];
      RunInOrder(c, interval, front);
      RunTracks(c, interval, front);
      var (s, log) := Run(c, interval, front);
      TimePasses(c, s.gov, Monitor(c, log), EndTime(front), e.at);
      if e.event.Send? { BroadcastTracks(c, interval, s, Monitor(c, log), log, e.at, e.event.held); }
      if e.event.Read? { EvaluateTracks(c, s.gov, Monitor(c, log), log, e.at); }
      assert EndTime(front) <= e.at;
      assert AllAt(Step(c, interval, s, e).1, e.at);
    }
  }

  lemma {:induction false} PrefixNotBroken(c: Config, log: seq<Entry>, k: nat)
    requires k <= |log| && !Monitor(c, log).Broken?
    ensures !Monitor(c, log[..k]).Broken?
    decreases |log|
  {
    if k == |log| {
      assert log[..k] == log;
    } else {
      PrefixNotBroken(c, log[..|log| - 1], k);
      assert log[..|log| - 1][..k] == log[..k];
    }
  }

  /** After a halt, either the same halt still stands or the clock has passed its end. */
  lemma {:induction false} HaltStands(c: Config, log: seq<Entry>, i: nat)
    requires i < |log| && log[i].HaltBegan? && InOrder(log) && !Monitor(c, log).Broken?
    ensures var m := Monitor(c, log); var end := log[i].at + log[i].cooldown;
      (m.Halt? && m.until == end) || log[|log| - 1].at >= end
    decreases |log|
  {
    if i < |log| - 1 {
      var front := log[..|log| - 1];
      PrefixNotBroken(c, log, |log| - 1);
      HaltStands(c, front, i);
      assert log[|log| - 2].at <= log[|log| - 1].at;
    }
  }

  lemma StepAt(c: Config, log: seq<Entry>, j: nat)
    requires j < |log| && !Monitor(c, log).Broken?
    ensures !Monitor(c, log[..j]).Broken?
    ensures !MonStep(c, Monitor(c, log[..j]), log[j]).Broken?
  {
    PrefixNotBroken(c, log, j);
    PrefixNotBroken(c, log, j + 1);
    assert log[..j + 1] == log[..j] + [log[j]];
    MonitorOne(c, log[..j], log[j]);
  }

  lemma DispatchAfterCooldown(c: Config, log: seq<Entry>, i: nat, j: nat)
    requires InOrder(log) && !Monitor(c, log).Broken?
    requires i < j < |log| && log[i].HaltBegan? && log[j].Dispatched?
    ensures log[i].at + log[i].cooldown <= log[j].at
  {
    StepAt(c, log, j);
    HaltStands(c, log[..j], i);
    assert log[j - 1].at <= log[j].at;
  }

  /** Nothing is sent between a halt's start and the end of its cooldown. */
  lemma NothingSentInCooldown(c: Config, interval: int, events: seq<Timed>, i: nat, j: nat)
    requires ClockRuns(events)
    requires var log := Run(c, interval, events).1; i < j < |log| && log[i].HaltBegan? && log[j].Dispatched?
    ensures var log := Run(c, interval, events).1; log[i].at + log[i].cooldown <= log[j].at
  {
    RunTracks(c, interval, events);
    RunInOrder(c, interval, events);
    DispatchAfterCooldown(c, Run(c, interval, events).1, i, j);
  }

  function CountSent(log: seq<Entry>): nat {
    if log == [] then 0 else CountSent(log[..|log| - 1]) + if log[|log| - 1].Dispatched? then 1 else 0
  }

  /** The stretch of a log that belongs to the trial opened at `i`. */
  ghost predicate WithinTrial(log: seq<Entry>, i: nat, j: nat) {
    && i < j <= |log| && log[i].TrialOpened?
    && forall k :: i < k < j ==> !log[k].TrialCleared? && !log[k].HaltBegan?
  }

  lemma {:induction false} TrialCounts(c: Config, log: seq<Entry>, i: nat, j: nat)
    requires WithinTrial(log, i, j) && !Monitor(c, log[..j]).Broken?
    ensures var m := Monitor(c, log[..j]);
      && m.Trial? && m.inTrial == CountSent(log[i..j]) <= Budget(c)
      && (m.closed <==> exists k :: i < k < j && (log[k].TrialSealed? || log[k].CurrentReject?))
    decreases j
  {
    assert log[..j][..j - 1] == log[..j - 1];
    PrefixNotBroken(c, log[..j], j - 1);
    if j == i + 1 {
      assert log[i..j] == [log[i]];
      assert log[i..j][..0] == [];
      assert CountSent([]) == 0;
    } else {
      TrialCounts(c, log, i, j - 1);
      assert log[i..j][..j - 1 - i] == log[i..j - 1];
      if log[j - 1].TrialSealed? || log[j - 1].CurrentReject? { assert i < j - 1 < j; }
    }
  }

  lemma NoDispatchOnceClosed(c: Config, log: seq<Entry>, i: nat, k: nat, d: nat)
    requires WithinTrial(log, i, d) && d < |log| && !Monitor(c, log).Broken?
    requires i < k < d && (log[k].TrialSealed? || log[k].CurrentReject?)
    ensures !log[d].Dispatched?
  {
    StepAt(c, log, d);
    TrialCounts(c, log, i, d);
  }

  /** A trial passes at most its budget, and nothing once it is sealed or a current rejection is recorded. */
  lemma TrialIsBounded(c: Config, interval: int, events: seq<Timed>, i: nat, j: nat)
    requires ClockRuns(events) && WithinTrial(Run(c, interval, events).1, i, j)
    ensures var log := Run(c, interval, events).1;
      && CountSent(log[i..j]) <= Budget(c)
      && (forall k, d :: i < k < d < j && (log[k].TrialSealed? || log[k].CurrentReject?) ==> !log[d].Dispatched?)
  {
    var log := Run(c, interval, events).1;
    RunTracks(c, interval, events);
    PrefixNotBroken(c, log, j);
    TrialCounts(c, log, i, j);
    forall k, d | i < k < d < j && (log[k].TrialSealed? || log[k].CurrentReject?) ensures !log[d].Dispatched? {
      NoDispatchOnceClosed(c, log, i, k, d);
    }
  }

  // ---------- sustained refusal ----------

  function CountTrials(log: seq<Entry>): nat {
    if log == [] then 0 else CountTrials(log[..|log| - 1]) + if log[|log| - 1].TrialOpened? then 1 else 0
  }

  function CountHalts(log: seq<Entry>): nat {
    if log == [] then 0 else CountHalts(log[..|log| - 1]) + if log[|log| - 1].HaltBegan? then 1 else 0
  }

  lemma CountsMore(log: seq<Entry>, e: Entry)
    ensures CountSent(log + [e]) == CountSent(log) + if e.Dispatched? then 1 else 0
    ensures CountTrials(log + [e]) == CountTrials(log) + if e.TrialOpened? then 1 else 0
    ensures CountHalts(log + [e]) == CountHalts(log) + if e.HaltBegan? then 1 else 0
  {
    assert (log + [e])[..|log|] == log;
  }

  /** No halt from `b`, where the log begins or a trial has cleared, up to `f`. */
  ghost predicate QuietSince(log: seq<Entry>, b: nat, f: nat) {
    b <= f <= |log| && (b == 0 || log[b - 1].TrialCleared?) && forall k :: b <= k < f ==> !log[k].HaltBegan?
  }

  /** A halt with no halt before it since the log began or a trial last cleared, and no clearance between it and `n`. */
  ghost predicate Streak(log: seq<Entry>, f: nat, n: nat) {
    && f < n <= |log| && log[f].HaltBegan?
    && (exists b :: QuietSince(log, b, f))
    && forall k :: f < k < n ==> !log[k].TrialCleared?
  }

  lemma {:induction false} OpenUntilHalt(c: Config, log: seq<Entry>, b: nat, f: nat)
    requires QuietSince(log, b, f) && !Monitor(c, log[..f]).Broken?
    ensures Monitor(c, log[..f]).Open?
    decreases f
  {
    if f > 0 {
      assert log[..f][..f - 1] == log[..f - 1];
      PrefixNotBroken(c, log[..f], f - 1);
      if f > b { OpenUntilHalt(c, log, b, f - 1); }
    }
  }

  /** What the monitor's state says of a streak of so many halts, trials and dispatches by some time. */
  ghost predicate StreakState(c: Config, m: Mon, start: int, halts: nat, trials: nat, sent: nat, last: int) {
    match m
    case Halt(first, n, k, until) =>
      && first == start && n == halts == trials + 1 && k == sent <= Allowed(c, trials)
      && start + SumCooldowns(c, halts) <= until && start + SumCooldowns(c, trials) <= last
    case Trial(first, n, k, openedAt, inTrial, _) =>
      && first == start && n == halts == trials > 0 && k == sent
      && inTrial <= Budget(c) && sent <= Allowed(c, trials - 1) + inTrial
      && start + SumCooldowns(c, trials) <= openedAt <= last
    case _ => false
  }

  function One(b: bool): nat { if b then 1 else 0 }

  lemma StreakStep(c: Config, m: Mon, start: int, halts: nat, trials: nat, sent: nat, last: int, e: Entry)
    requires StreakState(c, m, start, halts, trials, sent, last) && last <= e.at
    requires !e.TrialCleared? && !MonStep(c, m, e).Broken?
    ensures StreakState(c, MonStep(c, m, e), start, halts + One(e.HaltBegan?), trials + One(e.TrialOpened?),
                        sent + One(e.Dispatched?), e.at)
    ensures e.HaltBegan? ==> e.cooldown == Cooldown(c, halts)
  {
    if m.Trial? {
      assert SumCooldowns(c, halts + 1) == SumCooldowns(c, halts) + Cooldown(c, halts);
      assert Allowed(c, trials) == Allowed(c, trials - 1) + Budget(c);
    }
  }

  ghost predicate StreakSeen(c: Config, log: seq<Entry>, f: nat, n: nat)
    requires f < n <= |log|
  {
    var part := log[f..n];
    StreakState(c, Monitor(c, log[..n]), log[f].at, CountHalts(part), CountTrials(part), CountSent(part), log[n - 1].at)
  }

  lemma StreakStarts(c: Config, log: seq<Entry>, f: nat)
    requires f < |log| && log[f].HaltBegan? && Monitor(c, log[..f]).Open? && !Monitor(c, log[..f + 1]).Broken?
    ensures StreakSeen(c, log, f, f + 1) && log[f].cooldown == Cooldown(c, 0)
  {
    assert log[..f + 1] == log[..f] + [log[f]] && log[f..f + 1] == [] + [log[f]];
    MonitorOne(c, log[..f], log[f]);
    CountsMore([], log[f]);
    assert SumCooldowns(c, 1) == SumCooldowns(c, 0) + Cooldown(c, 0);
  }

  lemma PartGrows(log: seq<Entry>, f: nat, n: nat)
    requires f < n < |log| && InOrder(log)
    ensures log[..n + 1] == log[..n] + [log[n]] && log[f..n + 1] == log[f..n] + [log[n]]
    ensures log[n - 1].at <= log[n].at
  {
  }

  lemma StreakGoesOn(c: Config, log: seq<Entry>, f: nat, n: nat)
    requires f < n < |log| && StreakSeen(c, log, f, n) && InOrder(log)
    requires !log[n].TrialCleared? && !Monitor(c, log[..n + 1]).Broken?
    ensures StreakSeen(c, log, f, n + 1)
    ensures log[n].HaltBegan? ==> log[n].cooldown == Cooldown(c, CountHalts(log[f..n]))
  {
    var part, e := log[f..n], log[n];
    PartGrows(log, f, n);
    MonitorOne(c, log[..n], e);
    CountsMore(part, e);
    StreakStep(c, Monitor(c, log[..n]), log[f].at, CountHalts(part), CountTrials(part), CountSent(part),
        log[n - 1].at, e);
  }

  lemma StreakOpens(c: Config, log: seq<Entry>, f: nat, n: nat)
    requires Streak(log, f, n) && !Monitor(c, log).Broken?
    ensures StreakSeen(c, log, f, f + 1) && log[f].cooldown == Cooldown(c, 0)
  {
    PrefixNotBroken(c, log, f);
    PrefixNotBroken(c, log, f + 1);
    var b: nat :| QuietSince(log, b, f);
    OpenUntilHalt(c, log, b, f);
    StreakStarts(c, log, f);
  }

  lemma {:induction false} StreakCounts(c: Config, log: seq<Entry>, f: nat, n: nat)
    requires Streak(log, f, n) && InOrder(log) && !Monitor(c, log).Broken?
    ensures StreakSeen(c, log, f, n)
    decreases n
  {
    if n == f + 1 {
      StreakOpens(c, log, f, n);
    } else {
      StreakCounts(c, log, f, n - 1);
      PrefixNotBroken(c, log, n);
      StreakGoesOn(c, log, f, n - 1);
    }
  }

  lemma StreakCooldown(c: Config, log: seq<Entry>, f: nat, n: nat, k: nat)
    requires Streak(log, f, n) && InOrder(log) && !Monitor(c, log).Broken? && f <= k < n && log[k].HaltBegan?
    ensures log[k].cooldown == Cooldown(c, CountHalts(log[f..k]))
  {
    if k == f {
      StreakOpens(c, log, f, n);
      assert log[f..f] == [];
    } else {
      StreakCounts(c, log, f, k);
      PrefixNotBroken(c, log, k + 1);
      StreakGoesOn(c, log, f, k);
    }
  }

  /**
   Sustained refusal, at every moment `n` from the first halt `f` until a trial clears: what was sent
   is at most the budget per trial opened; the j-th consecutive halt cools down for
   min(max, base * 2^min(j, 16)); and the cooldowns those trials waited for fit in the time since `f`.
   */
  lemma RefusalIsAmortised(c: Config, interval: int, events: seq<Timed>, f: nat, n: nat)
    requires ClockRuns(events) && Streak(Run(c, interval, events).1, f, n)
    ensures var log := Run(c, interval, events).1; var trials := CountTrials(log[f..n]);
      && CountSent(log[f..n]) <= Budget(c) * trials
      && SumCooldowns(c, trials) <= log[n - 1].at - log[f].at
      && trials <= CountHalts(log[f..n]) <= trials + 1
      && forall k :: f <= k < n && log[k].HaltBegan? ==> log[k].cooldown == Cooldown(c, CountHalts(log[f..k]))
  {
    var log := Run(c, interval, events).1;
    RunTracks(c, interval, events);
    RunInOrder(c, interval, events);
    StreakCounts(c, log, f, n);
    AllowedIsProduct(c, CountTrials(log[f..n]));
    forall k | f <= k < n && log[k].HaltBegan? ensures log[k].cooldown == Cooldown(c, CountHalts(log[f..k])) {
      StreakCooldown(c, log, f, n, k);
    }
  }

  // ---------- evidence over runs ----------

  ghost predicate TimesSorted(obs: seq<Observation>) {
    forall i, j :: 0 <= i <= j < |obs| ==> obs[i].at <= obs[j].at
  }

  function InWindow(obs: seq<Observation>, cutoff: int): seq<Observation> {
    if obs == [] then []
    else (if obs[0].at < cutoff then [] else [obs[0]]) + InWindow(obs[1..], cutoff)
  }

  lemma {:induction false} AllInWindow(obs: seq<Observation>, cutoff: int)
    requires forall i :: 0 <= i < |obs| ==> obs[i].at >= cutoff
    ensures InWindow(obs, cutoff) == obs
  {
    if obs != [] { AllInWindow(obs[1..], cutoff); }
  }

  /** On evidence in time order, dropping a prefix is filtering the whole list by the window. */
  lemma {:induction false} TrimIsFilter(obs: seq<Observation>, cutoff: int)
    requires TimesSorted(obs)
    ensures Trim(obs, cutoff) == InWindow(obs, cutoff)
  {
    if obs != [] && obs[0].at < cutoff {
      TrimIsFilter(obs[1..], cutoff);
    } else if obs != [] {
      AllInWindow(obs, cutoff);
    }
  }

  lemma {:induction false} TrimKeepsOrder(obs: seq<Observation>, cutoff: int)
    requires TimesSorted(obs)
    ensures TimesSorted(Trim(obs, cutoff))
    ensures |Trim(obs, cutoff)| <= |obs|
    ensures Trim(obs, cutoff) == obs[|obs| - |Trim(obs, cutoff)|..]
  {
    if obs != [] && obs[0].at < cutoff { TrimKeepsOrder(obs[1..], cutoff); }
  }

  /** In time order, nothing later than now, and empty for as long as nothing may be sent. */
  ghost predicate EvidenceOk(c: Config, g: Gov, now: int) {
    && TimesSorted(g.observations)
    && (forall i :: 0 <= i < |g.observations| ==> g.observations[i].at <= now)
    && (c.paused || (g.probe.None? && g.haltedUntil > now) ==> g.observations == [])
    && (c.paused ==> g.probe.None?)
  }

  lemma EvaluateEvidence(c: Config, g: Gov, now: int)
    requires EvidenceOk(c, g, now)
    ensures EvidenceOk(c, Evaluate(c, g, now).0, now)
  {
    TrimKeepsOrder(g.observations, now - c.windowMs);
  }

  lemma ObserveEvidence(c: Config, g: Gov, now: int, rejected: bool)
    requires EvidenceOk(c, g, now) && (g.probe.Some? || !HardStopped(c, g, now))
    ensures EvidenceOk(c, Observe(c, g, now, rejected), now)
  {
    TrimKeepsOrder(g.observations + [Observation(now, rejected)], now - c.windowMs);
  }

  lemma RecordEvidence(c: Config, g: Gov, now: int, rejected: bool, broadcastAt: Option<int>)
    requires EvidenceOk(c, g, now)
    ensures EvidenceOk(c, Record(c, g, now, rejected, broadcastAt).0, now)
  {
    if g.probe.Some? || !HardStopped(c, g, now) { ObserveEvidence(c, g, now, rejected); }
  }

  lemma {:induction false} RunEvidence(c: Config, interval: int, events: seq<Timed>)
    requires ClockRuns(events)
    ensures EvidenceOk(c, Run(c, interval, events).0.gov, EndTime(events))
    decreases |events|
  {
    if events != [] {
      var front, e := events[..|events| - 1], events[|events| - 1];
      RunEvidence(c, interval, front);
      var s := Run(c, interval, front).0;
      assert EndTime(front) <= e.at;
      assert EvidenceOk(c, s.gov, e.at);
      EvaluateEvidence(c, s.gov, e.at);
      EvaluateEvidence(c, Evaluate(c, s.gov, e.at).0, e.at);
      RecordEvidence(c, s.gov, e.at, e.event.Refused?, if e.event.Refused? then e.event.broadcastAt else None);
    }
  }

  // ---------- stale rejections interfere with nothing ----------

  ghost predicate SameButStale(s: Gate, t: Gate) {
    s.(gov := s.gov.(staleRejects := 0)) == t.(gov := t.gov.(staleRejects := 0))
  }

  predicate IsStale(c: Config, s: Gate, e: Timed) {
    e.event.Refused? && IsStaleReject(c, s.gov, e.at, e.event.broadcastAt)
  }

  /** The list without the rejections that are stale when they arrive. */
  function WithoutStale(c: Config, interval: int, s: Gate, events: seq<Timed>): seq<Timed>
    decreases |events|
  {
    if events == [] then []
    else if IsStale(c, s, events[0]) then WithoutStale(c, interval, Step(c, interval, s, events[0]).0, events[1..])
    else [events[0]] + WithoutStale(c, interval, Step(c, interval, s, events[0]).0, events[1..])
  }

  function Outcome(c: Config, interval: int, s: Gate, events: seq<Timed>): (Gate, seq<Decision>)
    decreases |events|
  {
    if events == [] then (s, [])
    else
      var (s1, _, d) := Step(c, interval, s, events[0]);
      var (s2, rest) := Outcome(c, interval, s1, events[1..]);
      (s2, (if d == Nothing then [] else [d]) + rest)
  }

  function Restale(g: Gov, n: nat): Gov { g.(staleRejects := n) }

  lemma EvaluateIgnoresStale(c: Config, g: Gov, n: nat, now: int)
    ensures var (g1, posture, log) := Evaluate(c, g, now);
      Evaluate(c, Restale(g, n), now) == (Restale(g1, n), posture, log)
  {
  }

  lemma RefuseIgnoresStale(c: Config, interval: int, s: Gate, n: nat, now: int)
    ensures var (s1, log) := Refuse(c, interval, s, now);
      Refuse(c, interval, s.(gov := Restale(s.gov, n)), now) == (s1.(gov := Restale(s1.gov, n)), log)
  {
    EvaluateIgnoresStale(c, s.gov, n, now);
  }

  lemma BroadcastIgnoresStale(c: Config, interval: int, s: Gate, n: nat, now: int, held: bool)
    ensures var (s1, sent, log) := Broadcast(c, interval, s, now, held);
      Broadcast(c, interval, s.(gov := Restale(s.gov, n)), now, held) == (s1.(gov := Restale(s1.gov, n)), sent, log)
  {
    RefuseIgnoresStale(c, interval, s, n, now);
    EvaluateIgnoresStale(c, s.gov, n, now);
    RefuseIgnoresStale(c, interval, s.(gov := Evaluate(c, s.gov, now).0), n, now);
  }

  lemma RecordIgnoresStale(c: Config, g: Gov, n: nat, now: int, rejected: bool, broadcastAt: Option<int>)
    ensures IsStaleReject(c, Restale(g, n), now, broadcastAt) <==> IsStaleReject(c, g, now, broadcastAt)
    ensures var (g1, log) := Record(c, g, now, rejected, broadcastAt);
      var (h1, log') := Record(c, Restale(g, n), now, rejected, broadcastAt);
      Restale(g1, 0) == Restale(h1, 0) && log == log'
    ensures rejected && IsStaleReject(c, g, now, broadcastAt) ==>
      Restale(Record(c, g, now, rejected, broadcastAt).0, 0) == Restale(g, 0)
  {
  }

  lemma StepSame(c: Config, interval: int, s: Gate, t: Gate, e: Timed)
    requires SameButStale(s, t)
    ensures IsStale(c, s, e) <==> IsStale(c, t, e)
    ensures var (s1, log1, d1) := Step(c, interval, s, e);
      var (t1, log2, d2) := Step(c, interval, t, e);
      SameButStale(s1, t1) && log1 == log2 && d1 == d2
    ensures IsStale(c, s, e) ==> Step(c, interval, s, e).2 == Nothing && SameButStale(Step(c, interval, s, e).0, t)
  {
    var n := t.gov.staleRejects;
    assert t == s.(gov := Restale(s.gov, n));
    match e.event
    case Send(held) => BroadcastIgnoresStale(c, interval, s, n, e.at, held);
    case Accepted => RecordIgnoresStale(c, s.gov, n, e.at, false, None);
    case Refused(broadcastAt) => RecordIgnoresStale(c, s.gov, n, e.at, true, broadcastAt);
    case Read => EvaluateIgnoresStale(c, s.gov, n, e.at);
  }

  /** A run with stale rejections and the run without them decide alike and end alike. */
  lemma {:induction false} StaleChangesNothing(c: Config, interval: int, s: Gate, t: Gate, events: seq<Timed>)
    requires SameButStale(s, t)
    ensures var (s1, ds) := Outcome(c, interval, s, events);
      var (t1, es) := Outcome(c, interval, t, WithoutStale(c, interval, s, events));
      SameButStale(s1, t1) && ds == es
    decreases |events|
  {
    if events != [] {
      var e := events[0];
      StepSame(c, interval, s, t, e);
      if IsStale(c, s, e) {
        StaleChangesNothing(c, interval, Step(c, interval, s, e).0, t, events[1..]);
      } else {
        StaleChangesNothing(c, interval, Step(c, interval, s, e).0, Step(c, interval, t, e).0, events[1..]);
        var rest := WithoutStale(c, interval, Step(c, interval, s, e).0, events[1..]);
        assert ([e] + rest)[1..] == rest;
      }
    }
  }

  /** Two runs that differ only in stale rejections make the same decisions. */
  lemma StaleInsertionsAreInvisible(c: Config, interval: int, s: Gate, a: seq<Timed>, b: seq<Timed>)
    requires WithoutStale(c, interval, s, a) == WithoutStale(c, interval, s, b)
    ensures Outcome(c, interval, s, a).1 == Outcome(c, interval, s, b).1
    ensures SameButStale(Outcome(c, interval, s, a).0, Outcome(c, interval, s, b).0)
  {
    StaleChangesNothing(c, interval, s, s, a);
    StaleChangesNothing(c, interval, s, s, b);
  }
}
