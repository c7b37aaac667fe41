/**
 The governor without its fields: what it does at any moment, as a function of the log alone.

 `Due` reads the log back to the last halt, trial or clearance and says what an evaluation must
 answer and log there. The run theorem says that the governor, which keeps counters, a window and
 timers instead, does exactly that in every run; the rules about trials are then read off the log.
 */
module GovernorHistory {
  import opened Lists
  import opened Options
  import opened SpendGovernor
  import opened GovernorRuns

  // ---------- the log read back ----------

  /** What ends one stretch of evidence and begins another. */
  predicate IsMark(e: Entry) { e.HaltBegan? || e.TrialOpened? || e.TrialCleared? }

  /** The last mark. */
  function Standing(log: seq<Entry>): Option<Entry> {
    if log == [] then None
    else if IsMark(log[|log| - 1]) then Some(log[|log| - 1]) else Standing(log[..|log| - 1])
  }

  /** What was logged since the last mark. */
  function Since(log: seq<Entry>): seq<Entry> {
    if log == [] || IsMark(log[|log| - 1]) then [] else Since(log[..|log| - 1]) + [log[|log| - 1]]
  }

  /** Halts since the log began or a trial last cleared. */
  function HaltsInARow(log: seq<Entry>): nat {
    if log == [] || log[|log| - 1].TrialCleared? then 0
    else HaltsInARow(log[..|log| - 1]) + if log[|log| - 1].HaltBegan? then 1 else 0
  }

  predicate HasReject(part: seq<Entry>) { exists k :: 0 <= k < |part| && part[k].CurrentReject? }

  /** When the trial was sealed. */
  function SealedAt(part: seq<Entry>): Option<int> {
    if part == [] then None
    else if part[|part| - 1].TrialSealed? then Some(part[|part| - 1].at) else SealedAt(part[..|part| - 1])
  }

  /** Verdicts from `cutoff` on, and the rejections among them. */
  function CountVerdicts(part: seq<Entry>, cutoff: int): nat {
    if part == [] then 0
    else
      var e := part[|part| - 1];
      CountVerdicts(part[..|part| - 1], cutoff)
      + if (e.CurrentAccept? || e.CurrentReject?) && e.at >= cutoff then 1 else 0
  }

  function CountRejects(part: seq<Entry>, cutoff: int): nat {
    if part == [] then 0
    else
      var e := part[|part| - 1];
      CountRejects(part[..|part| - 1], cutoff) + if e.CurrentReject? && e.at >= cutoff then 1 else 0
  }

  // ---------- what is due ----------

  /** An open trial: one rejection is decisive; it is sealed once spent or expired, and clears a settle time later. */
  function TrialOutcome(c: Config, halts: nat, openedAt: int, sent: nat, sealed: Option<int>, rejected: bool, now: int)
    : (seq<Entry>, Posture)
  {
    if rejected then ([HaltBegan(now, Cooldown(c, halts))], Halted)
    else if sealed.Some? then
      if sealed.value + c.probeSettleMs <= now then ([TrialCleared(now)], Normal) else ([], Probing)
    else if sent >= c.probeBudget || openedAt + 3 * c.probeSettleMs <= now then ([TrialSealed(now)], Probing)
    else ([], Probing)
  }

  /** No halt and no trial: the share of rejections in the window decides, once there are enough verdicts. */
  function OpenOutcome(c: Config, halts: nat, total: nat, rejects: nat, now: int): (seq<Entry>, Posture) {
    if total == 0 || total < c.minSamples then ([], Normal)
    else
      var share := rejects as real / total as real;
      if share >= c.haltRatio then ([HaltBegan(now, Cooldown(c, halts))], Halted)
      else ([], if share >= c.cautiousRatio then Cautious else Normal)
  }

  function DueInTrial(c: Config, log: seq<Entry>, openedAt: int, now: int): (seq<Entry>, Posture) {
    var part := Since(log);
    TrialOutcome(c, HaltsInARow(log), openedAt, CountSent(part), SealedAt(part), HasReject(part), now)
  }

  function DueInOpen(c: Config, log: seq<Entry>, now: int): (seq<Entry>, Posture) {
    var part, cutoff := Since(log), now - c.windowMs;
    OpenOutcome(c, HaltsInARow(log), CountVerdicts(part, cutoff), CountRejects(part, cutoff), now)
  }

  /** What an evaluation logs and answers. */
  function Due(c: Config, log: seq<Entry>, now: int): (seq<Entry>, Posture) {
    if c.paused then ([], Halted)
    else
      match Standing(log)
      case Some(HaltBegan(at, cooldown)) => if now < at + cooldown then ([], Halted) else ([TrialOpened(now)], Probing)
      case Some(TrialOpened(at)) => DueInTrial(c, log, at, now)
      case _ => DueInOpen(c, log, now)
  }

  /** Whether one transaction may pass, after an evaluation that answered `posture`. */
  predicate MayPass(c: Config, log: seq<Entry>, posture: Posture) {
    match posture
    case Halted => false
    case Probing =>
      Standing(log).Some? && Standing(log).value.TrialOpened?
      && SealedAt(Since(log)).None? && CountSent(Since(log)) < c.probeBudget
    case _ => true
  }

  /** Nothing may be sent and no trial is open: verdicts are about transactions already paid for. */
  predicate Stopped(c: Config, log: seq<Entry>, now: int) {
    c.paused || match Standing(log) case Some(HaltBegan(at, cooldown)) => now < at + cooldown case _ => false
  }

  /** The time before which a rejected broadcast is no evidence: the trial's start, or the window's. */
  function EvidenceFrom(c: Config, log: seq<Entry>, now: int): int {
    match Standing(log)
    case Some(TrialOpened(at)) => at
    case _ => now - c.windowMs
  }

  predicate Counts(c: Config, log: seq<Entry>, now: int, broadcastAt: Option<int>) {
    !Stopped(c, log, now) && (broadcastAt.Some? ==> EvidenceFrom(c, log, now) <= broadcastAt.value)
  }

  // ---------- the fields are what the log says ----------

  function Verdict(e: Entry): seq<Observation> {
    if e.CurrentAccept? then [Observation(e.at, false)] else if e.CurrentReject? then [Observation(e.at, true)] else []
  }

  function Verdicts(part: seq<Entry>): seq<Observation> {
    if part == [] then [] else Verdicts(part[..|part| - 1]) + Verdict(part[|part| - 1])
  }

  function TrialOf(c: Config, part: seq<Entry>, openedAt: int): Probe {
    Probe(openedAt, CountSent(part), CountRejects(part, openedAt),
          if SealedAt(part).Some? then Some(SealedAt(part).value + c.probeSettleMs) else None)
  }

  /** A trial is sealed only when spent or expired, which then stays so. */
  predicate SealFits(c: Config, part: seq<Entry>, openedAt: int) {
    SealedAt(part).Some? ==> CountSent(part) >= c.probeBudget || openedAt + 3 * c.probeSettleMs <= SealedAt(part).value
  }

  predicate PhaseTold(c: Config, g: Gov, standing: Option<Entry>, part: seq<Entry>) {
    match standing
    case Some(HaltBegan(at, cooldown)) => g.probe.None? && g.haltedUntil == at + cooldown > 0
    case Some(TrialOpened(at)) => g.haltedUntil == 0 && g.probe == Some(TrialOf(c, part, at)) && SealFits(c, part, at)
    case _ => g.probe.None? && g.haltedUntil == 0
  }

  predicate SameFrom(a: seq<Observation>, b: seq<Observation>, cutoff: int) {
    InWindow(a, cutoff) == InWindow(b, cutoff)
  }

  /** The window holds the verdicts of the stretch, as far back as any later question looks. */
  ghost predicate WindowTold(c: Config, obs: seq<Observation>, verdicts: seq<Observation>, now: int) {
    && TimesSorted(obs) && (forall i :: 0 <= i < |obs| ==> obs[i].at <= now)
    && forall cutoff :: cutoff >= now - c.windowMs ==> SameFrom(obs, verdicts, cutoff)
  }

  ghost predicate Told(c: Config, g: Gov, log: seq<Entry>, now: int) {
    && PhaseTold(c, g, Standing(log), Since(log))
    && WindowTold(c, g.observations, Verdicts(Since(log)), now)
    && g.consecutiveHalts == Min(HaltsInARow(log), 16)
    && (c.paused ==> log == [])
    && LogOk(log, now)
  }

  ghost predicate LogOk(log: seq<Entry>, now: int) {
    InOrder(log) && forall i :: 0 <= i < |log| ==> log[i].at <= now
  }

  // ---------- one more entry ----------

  lemma OneMore(log: seq<Entry>, e: Entry)
    ensures Standing(log + [e]) == if IsMark(e) then Some(e) else Standing(log)
    ensures Since(log + [e]) == if IsMark(e) then [] else Since(log) + [e]
    ensures HaltsInARow(log + [e]) == if e.TrialCleared? then 0 else HaltsInARow(log) + if e.HaltBegan? then 1 else 0
  {
    assert (log + [e])[..|log|] == log;
  }

  lemma PartMore(part: seq<Entry>, e: Entry, cutoff: int)
    ensures SealedAt(part + [e]) == if e.TrialSealed? then Some(e.at) else SealedAt(part)
    ensures CountSent(part + [e]) == CountSent(part) + if e.Dispatched? then 1 else 0
    ensures CountRejects(part + [e], cutoff)
         == CountRejects(part, cutoff) + if e.CurrentReject? && e.at >= cutoff then 1 else 0
    ensures Verdicts(part + [e]) == Verdicts(part) + Verdict(e)
  {
    assert (part + [e])[..|part|] == part;
  }

  lemma {:induction false} WindowMore(obs: seq<Observation>, o: Observation, cutoff: int)
    ensures InWindow(obs + [o], cutoff) == InWindow(obs, cutoff) + if o.at < cutoff then [] else [o]
  {
    var kept := if o.at < cutoff then [] else [o];
    if obs == [] {
      assert obs + [o] == [o] && [o][1..] == [];
      assert InWindow([o], cutoff) == kept + InWindow([], cutoff);
    } else {
      var first := if obs[0].at < cutoff then [] else [obs[0]];
      assert (obs + [o])[0] == obs[0] && (obs + [o])[1..] == obs[1..] + [o];
      WindowMore(obs[1..], o, cutoff);
      Regrouped(first, InWindow(obs[1..], cutoff), kept);
    }
  }

  lemma {:induction false} WindowOfTrim(obs: seq<Observation>, cut: int, cutoff: int)
    requires cut <= cutoff
    ensures InWindow(Trim(obs, cut), cutoff) == InWindow(obs, cutoff)
  {
    if obs != [] && obs[0].at < cut { WindowOfTrim(obs[1..], cut, cutoff); }
  }

  lemma RejectedMore(obs: seq<Observation>, o: Observation)
    ensures Rejected(obs + [o]) == Rejected(obs) + if o.rejected then 1 else 0
    ensures Rejected(obs + []) == Rejected(obs)
  {
    assert (obs + [o])[..|obs|] == obs && obs + [] == obs;
  }

  /** The counts of the window are counts of log entries. */
  lemma {:induction false} WindowCounts(part: seq<Entry>, cutoff: int)
    ensures |InWindow(Verdicts(part), cutoff)| == CountVerdicts(part, cutoff)
    ensures Rejected(InWindow(Verdicts(part), cutoff)) == CountRejects(part, cutoff)
  {
    if part != [] {
      var front, e := part[..|part| - 1], part[|part| - 1];
      WindowCounts(front, cutoff);
      if Verdict(e) == [] {
        assert Verdicts(part) == Verdicts(front);
      } else {
        CountsOneVerdict(Verdicts(front), Verdict(e)[0], cutoff);
        assert Verdicts(part) == Verdicts(front) + [Verdict(e)[0]];
      }
    }
  }

  lemma CountsOneVerdict(obs: seq<Observation>, o: Observation, cutoff: int)
    ensures |InWindow(obs + [o], cutoff)| == |InWindow(obs, cutoff)| + if o.at >= cutoff then 1 else 0
    ensures Rejected(InWindow(obs + [o], cutoff))
         == Rejected(InWindow(obs, cutoff)) + if o.rejected && o.at >= cutoff then 1 else 0
  {
    WindowMore(obs, o, cutoff);
    RejectedMore(InWindow(obs, cutoff), o);
  }

  lemma {:induction false} RejectsInTrial(part: seq<Entry>, cutoff: int)
    requires forall k :: 0 <= k < |part| ==> part[k].at >= cutoff
    ensures CountRejects(part, cutoff) > 0 <==> HasReject(part)
  {
    if part != [] {
      var front := part[..|part| - 1];
      RejectsInTrial(front, cutoff);
      if HasReject(front) {
        var k :| 0 <= k < |front| && front[k].CurrentReject?;
        assert part[k].CurrentReject?;
      }
      if part[|part| - 1].CurrentReject? { assert HasReject(part); }
      if HasReject(part) && !part[|part| - 1].CurrentReject? {
        var k :| 0 <= k < |part| && part[k].CurrentReject?;
        assert front[k].CurrentReject?;
      }
    }
  }

  lemma {:induction false} SinceIsLater(log: seq<Entry>)
    requires InOrder(log) && Standing(log).Some?
    ensures forall k :: 0 <= k < |Since(log)| ==> Since(log)[k].at >= Standing(log).value.at
    ensures Standing(log).value in log
  {
    var front, e := log[..|log| - 1], log[|log| - 1];
    if !IsMark(e) {
      SinceIsLater(front);
      var i :| 0 <= i < |front| && front[i] == Standing(log).value;
      assert log[i].at <= e.at;
    }
  }

  // ---------- every step keeps them so, and does what is due ----------

  lemma TimePassesTold(c: Config, g: Gov, log: seq<Entry>, now: int, later: int)
    requires Told(c, g, log, now) && now <= later
    ensures Told(c, g, log, later)
  {
  }

  lemma TrimTold(c: Config, obs: seq<Observation>, verdicts: seq<Observation>, now: int)
    requires WindowTold(c, obs, verdicts, now)
    ensures var trimmed := Trim(obs, now - c.windowMs);
      WindowTold(c, trimmed, verdicts, now) && trimmed == InWindow(verdicts, now - c.windowMs)
  {
    var cut := now - c.windowMs;
    TrimKeepsOrder(obs, cut);
    TrimIsFilter(obs, cut);
    assert SameFrom(obs, verdicts, cut);
    forall cutoff | cutoff >= cut ensures SameFrom(Trim(obs, cut), verdicts, cutoff) {
      WindowOfTrim(obs, cut, cutoff);
      assert SameFrom(obs, verdicts, cutoff);
    }
  }

  lemma LogMore(log: seq<Entry>, e: Entry, now: int)
    requires LogOk(log, now) && e.at == now
    ensures LogOk(log + [e], now)
  {
  }

  /** After a mark the evidence starts empty. */
  lemma MarkTold(c: Config, g: Gov, log: seq<Entry>, e: Entry, now: int)
    requires !c.paused && LogOk(log, now)
    requires e.at == now && IsMark(e) && g.observations == []
    requires g.consecutiveHalts == Min(HaltsInARow(log + [e]), 16)
    requires match e
             case HaltBegan(at, cooldown) => g.probe.None? && g.haltedUntil == at + cooldown > 0
             case TrialOpened(at) => g.haltedUntil == 0 && g.probe == Some(Probe(at, 0, 0, None))
             case _ => g.probe.None? && g.haltedUntil == 0
    ensures Told(c, g, log + [e], now)
  {
    OneMore(log, e);
    LogMore(log, e, now);
    assert Since(log + [e]) == [] && Verdicts([]) == [];
  }

  /** An entry that is neither a mark nor a verdict leaves the evidence as it is. */
  lemma QuietTold(c: Config, g: Gov, g': Gov, log: seq<Entry>, e: Entry, now: int)
    requires Told(c, g, log, now) && !c.paused
    requires g' == g.(probe := g'.probe) && e.at == now && !IsMark(e) && Verdict(e) == []
    requires PhaseTold(c, g', Standing(log), Since(log) + [e])
    ensures Told(c, g', log + [e], now)
  {
    OneMore(log, e);
    LogMore(log, e, now);
    PartMore(Since(log), e, 0);
    assert Verdicts(Since(log)) + [] == Verdicts(Since(log));
  }

  lemma HaltDue(c: Config, g: Gov, log: seq<Entry>, now: int)
    requires Told(c, g, log, now) && now > 0 && !c.paused && (Standing(log).Some? ==> !Standing(log).value.HaltBegan?)
    ensures var (g1, more) := BeginHalt(c, g, now);
      more == [HaltBegan(now, Cooldown(c, HaltsInARow(log)))] && Told(c, g1, log + more, now)
  {
    CooldownOfNextHalt(c, g, now, HaltsInARow(log));
    OneMore(log, HaltBegan(now, Cooldown(c, HaltsInARow(log))));
    MarkTold(c, BeginHalt(c, g, now).0, log, HaltBegan(now, Cooldown(c, HaltsInARow(log))), now);
  }

  ghost predicate DoesWhatIsDue(c: Config, log: seq<Entry>, now: int, due: (seq<Entry>, Posture),
                                result: (Gov, Posture, seq<Entry>))
  {
    result.1 == due.1 && result.2 == due.0 && Told(c, result.0, log + due.0, now)
  }

  lemma NothingLogged(c: Config, g: Gov, log: seq<Entry>, now: int)
    requires Told(c, g, log, now)
    ensures Told(c, g, log + [], now)
  {
    assert log + [] == log;
  }

  lemma TrialDue(c: Config, g: Gov, log: seq<Entry>, openedAt: int, now: int)
    requires Told(c, g, log, now) && now > 0 && !c.paused && Standing(log) == Some(TrialOpened(openedAt))
    ensures DoesWhatIsDue(c, log, now, DueInTrial(c, log, openedAt, now), EvaluateProbe(c, g, now))
  {
    SinceIsLater(log);
    RejectsInTrial(Since(log), openedAt);
    if HasReject(Since(log)) { HaltDue(c, g, log, now); } else { CleanTrialDue(c, g, log, openedAt, now); }
  }

  /** The fields of a clean trial lead where its figures do. */
  lemma CleanOutcome(c: Config, g: Gov, halts: nat, openedAt: int, sent: nat, sealed: Option<int>, now: int)
    requires g.probe
          == Some(Probe(openedAt, sent, 0, if sealed.Some? then Some(sealed.value + c.probeSettleMs) else None))
    requires sealed.Some? ==>
      sealed.value <= now && (sent >= c.probeBudget || openedAt + 3 * c.probeSettleMs <= sealed.value)
    ensures var (g1, posture, more) := EvaluateProbe(c, g, now);
      && TrialOutcome(c, halts, openedAt, sent, sealed, false, now) == (more, posture)
      && (more == [] ==> g1 == g)
      && (more == [TrialCleared(now)] ==> g1 == g.(probe := None, consecutiveHalts := 0, observations := []))
      && (more == [TrialSealed(now)] ==>
            (sent >= c.probeBudget || openedAt + 3 * c.probeSettleMs <= now)
            && g1 == g.(probe := Some(g.probe.value.(settleUntil := Some(now + c.probeSettleMs)))))
      && (more == [] || more == [TrialCleared(now)] || more == [TrialSealed(now)])
  {
  }

  lemma CleanTrialDue(c: Config, g: Gov, log: seq<Entry>, openedAt: int, now: int)
    requires Told(c, g, log, now) && now > 0 && !c.paused && Standing(log) == Some(TrialOpened(openedAt))
    requires !HasReject(Since(log)) && CountRejects(Since(log), openedAt) == 0
    ensures DoesWhatIsDue(c, log, now, DueInTrial(c, log, openedAt, now), EvaluateProbe(c, g, now))
  {
    SealIsPast(log, now);
    CleanOutcome(c, g, HaltsInARow(log), openedAt, CountSent(Since(log)), SealedAt(Since(log)), now);
    var (g1, posture, more) := EvaluateProbe(c, g, now);
    if more == [] {
      NothingLogged(c, g, log, now);
    } else if more == [TrialCleared(now)] {
      OneMore(log, TrialCleared(now));
      MarkTold(c, g1, log, TrialCleared(now), now);
    } else {
      SealTold(c, g, log, openedAt, now);
    }
  }

  lemma {:induction false} SealIsPast(log: seq<Entry>, now: int)
    requires LogOk(log, now)
    ensures SealedAt(Since(log)).Some? ==> SealedAt(Since(log)).value <= now
  {
    if log != [] && !IsMark(log[|log| - 1]) {
      SealIsPast(log[..|log| - 1], now);
      PartMore(Since(log[..|log| - 1]), log[|log| - 1], 0);
    }
  }

  lemma SealTold(c: Config, g: Gov, log: seq<Entry>, openedAt: int, now: int)
    requires Told(c, g, log, now) && !c.paused && Standing(log) == Some(TrialOpened(openedAt))
    requires CountSent(Since(log)) >= c.probeBudget || openedAt + 3 * c.probeSettleMs <= now
    ensures Told(c, g.(probe := Some(g.probe.value.(settleUntil := Some(now + c.probeSettleMs)))),
                 log + [TrialSealed(now)], now)
  {
    var g' := g.(probe := Some(g.probe.value.(settleUntil := Some(now + c.probeSettleMs))));
    SealPhase(c, g, Since(log), openedAt, now);
    QuietTold(c, g, g', log, TrialSealed(now), now);
  }

  lemma SealPhase(c: Config, g: Gov, part: seq<Entry>, openedAt: int, now: int)
    requires PhaseTold(c, g, Some(TrialOpened(openedAt)), part)
    requires CountSent(part) >= c.probeBudget || openedAt + 3 * c.probeSettleMs <= now
    ensures PhaseTold(c, g.(probe := Some(g.probe.value.(settleUntil := Some(now + c.probeSettleMs)))),
                      Some(TrialOpened(openedAt)), part + [TrialSealed(now)])
  {
    PartMore(part, TrialSealed(now), openedAt);
  }

  lemma JudgeIsDue(c: Config, log: seq<Entry>, now: int)
    ensures var obs := InWindow(Verdicts(Since(log)), now - c.windowMs);
      && DueInOpen(c, log, now).1 == Judge(c, obs)
      && DueInOpen(c, log, now).0
         == if Judge(c, obs) == Halted then [HaltBegan(now, Cooldown(c, HaltsInARow(log)))] else []
  {
    var part, cutoff := Since(log), now - c.windowMs;
    WindowCounts(part, cutoff);
    JudgeIsOutcome(c, InWindow(Verdicts(part), cutoff), CountVerdicts(part, cutoff), CountRejects(part, cutoff),
                   HaltsInARow(log), now);
  }

  lemma JudgeIsOutcome(c: Config, obs: seq<Observation>, total: nat, rejects: nat, halts: nat, now: int)
    requires total == |obs| && rejects == Rejected(obs)
    ensures OpenOutcome(c, halts, total, rejects, now)
         == (if Judge(c, obs) == Halted then [HaltBegan(now, Cooldown(c, halts))] else [], Judge(c, obs))
  {
  }

  lemma OpenDue(c: Config, g: Gov, log: seq<Entry>, now: int)
    requires Told(c, g, log, now) && now > 0 && !c.paused && (Standing(log).None? || Standing(log).value.TrialCleared?)
    requires g.observations == InWindow(Verdicts(Since(log)), now - c.windowMs)
    ensures DoesWhatIsDue(c, log, now, DueInOpen(c, log, now), EvaluateWindow(c, g, now))
  {
    JudgeIsDue(c, log, now);
    if Judge(c, g.observations) == Halted { HaltDue(c, g, log, now); } else { NothingLogged(c, g, log, now); }
  }

  lemma CooledDue(c: Config, g: Gov, log: seq<Entry>, at: int, cooldown: nat, now: int)
    requires Told(c, g, log, now) && now > 0 && !c.paused && Standing(log) == Some(HaltBegan(at, cooldown))
    ensures DoesWhatIsDue(c, log, now, Due(c, log, now), Evaluate(c, g, now))
  {
    if at + cooldown <= now {
      OneMore(log, TrialOpened(now));
      MarkTold(c, Evaluate(c, g, now).0, log, TrialOpened(now), now);
    } else {
      TrimTold(c, g.observations, Verdicts(Since(log)), now);
      NothingLogged(c, Evaluate(c, g, now).0, log, now);
    }
  }

  lemma EvaluateIsDue(c: Config, g: Gov, log: seq<Entry>, now: int)
    requires Told(c, g, log, now) && now > 0
    ensures DoesWhatIsDue(c, log, now, Due(c, log, now), Evaluate(c, g, now))
  {
    StandingIsMark(log);
    if c.paused {
      NothingLogged(c, g, log, now);
    } else if Standing(log).Some? && Standing(log).value.HaltBegan? {
      CooledDue(c, g, log, Standing(log).value.at, Standing(log).value.cooldown, now);
    } else {
      RunningDue(c, g, log, now);
    }
  }

  lemma RunningDue(c: Config, g: Gov, log: seq<Entry>, now: int)
    requires Told(c, g, log, now) && now > 0 && !c.paused
    requires Standing(log).Some? ==> Standing(log).value.TrialOpened? || Standing(log).value.TrialCleared?
    ensures DoesWhatIsDue(c, log, now, Due(c, log, now), Evaluate(c, g, now))
  {
    var trimmed := g.(observations := Trim(g.observations, now - c.windowMs));
    TrimTold(c, g.observations, Verdicts(Since(log)), now);
    assert Told(c, trimmed, log, now);
    if Standing(log).Some? && Standing(log).value.TrialOpened? {
      TrialDue(c, trimmed, log, Standing(log).value.at, now);
    } else {
      OpenDue(c, trimmed, log, now);
    }
  }

  lemma {:induction false} StandingIsMark(log: seq<Entry>)
    ensures Standing(log).Some? ==> IsMark(Standing(log).value)
  {
    if log != [] && !IsMark(log[|log| - 1]) { StandingIsMark(log[..|log| - 1]); }
  }

  function Noted(g: Gov, rejected: bool): Gov {
    if rejected && g.probe.Some? then g.(probe := Some(g.probe.value.(rejected := g.probe.value.rejected + 1))) else g
  }

  function VerdictEntry(now: int, rejected: bool): Entry { if rejected then CurrentReject(now) else CurrentAccept(now) }

  /** A verdict enters the evidence, and the trial if one is open. */
  lemma VerdictTold(c: Config, g: Gov, log: seq<Entry>, now: int, rejected: bool)
    requires Told(c, g, log, now) && !c.paused
    ensures Told(c, Observe(c, Noted(g, rejected), now, rejected), log + [VerdictEntry(now, rejected)], now)
  {
    var part, e := Since(log), VerdictEntry(now, rejected);
    VerdictMore(part, now, rejected);
    WindowAfterVerdict(c, g.observations, Verdicts(part), Observation(now, rejected), now);
    StandingIsPast(log, now);
    PhaseAfterVerdict(c, g, Standing(log), part, now, rejected);
    EntryTold(c, g, Observe(c, Noted(g, rejected), now, rejected), log, e, now);
  }

  /** An entry that is no mark adds to the stretch. */
  lemma EntryTold(c: Config, g: Gov, g': Gov, log: seq<Entry>, e: Entry, now: int)
    requires Told(c, g, log, now) && !c.paused && !IsMark(e) && e.at == now
    requires g'.consecutiveHalts == g.consecutiveHalts
    requires PhaseTold(c, g', Standing(log), Since(log) + [e])
    requires WindowTold(c, g'.observations, Verdicts(Since(log) + [e]), now)
    ensures Told(c, g', log + [e], now)
  {
    OneMore(log, e);
    LogMore(log, e, now);
  }

  lemma VerdictMore(part: seq<Entry>, now: int, rejected: bool)
    ensures Verdicts(part + [VerdictEntry(now, rejected)]) == Verdicts(part) + [Observation(now, rejected)]
  {
    PartMore(part, VerdictEntry(now, rejected), 0);
  }

  lemma StandingIsPast(log: seq<Entry>, now: int)
    requires LogOk(log, now)
    ensures Standing(log).Some? ==> Standing(log).value.at <= now
  {
    if Standing(log).Some? { SinceIsLater(log); }
  }

  lemma PhaseAfterVerdict(c: Config, g: Gov, standing: Option<Entry>, part: seq<Entry>, now: int, rejected: bool)
    requires PhaseTold(c, g, standing, part) && (standing.Some? ==> standing.value.at <= now)
    ensures PhaseTold(c, Noted(g, rejected), standing, part + [VerdictEntry(now, rejected)])
  {
    if standing.Some? { PartMore(part, VerdictEntry(now, rejected), standing.value.at); }
  }

  lemma WindowAfterVerdict(c: Config, obs: seq<Observation>, all: seq<Observation>, o: Observation, now: int)
    requires WindowTold(c, obs, all, now) && o.at == now
    ensures WindowTold(c, Trim(obs + [o], now - c.windowMs), all + [o], now)
  {
    var cut := now - c.windowMs;
    TrimKeepsOrder(obs + [o], cut);
    forall cutoff | cutoff >= cut ensures SameFrom(Trim(obs + [o], cut), all + [o], cutoff) {
      OneVerdictMore(obs, all, o, cut, cutoff);
    }
  }

  lemma OneVerdictMore(obs: seq<Observation>, all: seq<Observation>, o: Observation, cut: int, cutoff: int)
    requires cut <= cutoff && SameFrom(obs, all, cutoff)
    ensures SameFrom(Trim(obs + [o], cut), all + [o], cutoff)
  {
    WindowOfTrim(obs + [o], cut, cutoff);
    WindowMore(obs, o, cutoff);
    WindowMore(all, o, cutoff);
  }

  // ---------- the run theorem ----------

  lemma CountsIsFresh(c: Config, g: Gov, log: seq<Entry>, now: int, broadcastAt: Option<int>)
    requires Told(c, g, log, now) && now > 0
    ensures IsStaleReject(c, g, now, broadcastAt) <==> !Counts(c, log, now, broadcastAt)
    ensures g.probe.None? && HardStopped(c, g, now) <==> Stopped(c, log, now)
  {
    StandingIsMark(log);
    if Standing(log).Some? && Standing(log).value.TrialOpened? {
      assert !c.paused && g.probe.value.startedAt == Standing(log).value.at;
    }
  }

  lemma RecordIsDue(c: Config, g: Gov, log: seq<Entry>, now: int, rejected: bool, broadcastAt: Option<int>)
    requires Told(c, g, log, now) && now > 0 && (!rejected ==> broadcastAt.None?)
    ensures var (g1, more) := Record(c, g, now, rejected, broadcastAt);
      && more == (if Counts(c, log, now, broadcastAt) then [VerdictEntry(now, rejected)] else [])
      && Told(c, g1, log + more, now)
  {
    CountsIsFresh(c, g, log, now, broadcastAt);
    if Counts(c, log, now, broadcastAt) {
      VerdictTold(c, g, log, now, rejected);
      assert Record(c, g, now, rejected, broadcastAt)
          == (Observe(c, Noted(g, rejected), now, rejected), [VerdictEntry(now, rejected)]);
    } else {
      NothingLogged(c, g, log, now);
      NothingLogged(c, g.(staleRejects := g.staleRejects + 1), log, now);
    }
  }

  lemma SendIsDue(c: Config, g: Gov, log: seq<Entry>, posture: Posture, now: int)
    requires Told(c, g, log, now) && (posture == Probing ==> Standing(log).Some? && Standing(log).value.TrialOpened?)
    requires posture == Normal || posture == Cautious ==> Standing(log).None? || Standing(log).value.TrialCleared?
    requires posture != Halted ==> !c.paused
    ensures MaySend(c, g, posture) == MayPass(c, log, posture)
    ensures MayPass(c, log, posture) ==> Told(c, NoteDispatched(g), log + [Dispatched(now)], now)
  {
    PassIsDue(c, g, log, posture);
    if MayPass(c, log, posture) {
      SentPhase(c, g, Standing(log), Since(log), now);
      QuietTold(c, g, NoteDispatched(g), log, Dispatched(now), now);
    }
  }

  lemma PassIsDue(c: Config, g: Gov, log: seq<Entry>, posture: Posture)
    requires PhaseTold(c, g, Standing(log), Since(log))
    requires posture == Probing ==> Standing(log).Some? && Standing(log).value.TrialOpened?
    ensures MaySend(c, g, posture) == MayPass(c, log, posture)
  {
  }

  /** Not in a halt: a transaction that passes counts towards the trial, if one is open and not sealed. */
  lemma SentPhase(c: Config, g: Gov, standing: Option<Entry>, part: seq<Entry>, now: int)
    requires PhaseTold(c, g, standing, part) && (standing.Some? ==> !standing.value.HaltBegan?)
    requires standing.Some? && standing.value.TrialOpened? ==> SealedAt(part).None?
    ensures PhaseTold(c, NoteDispatched(g), standing, part + [Dispatched(now)])
  {
    if standing.Some? { PartMore(part, Dispatched(now), standing.value.at); }
  }

  /** After an evaluation, the posture fits the last mark. */
  lemma DuePosture(c: Config, log: seq<Entry>, now: int)
    ensures var (first, posture) := Due(c, log, now);
      && (posture == Probing ==> Standing(log + first).Some? && Standing(log + first).value.TrialOpened?)
      && (posture == Normal || posture == Cautious ==>
            Standing(log + first).None? || Standing(log + first).value.TrialCleared?)
      && (posture != Halted ==> !c.paused)
  {
    var (first, posture) := Due(c, log, now);
    StandingIsMark(log);
    if first == [] { assert log + first == log; } else { OneMore(log, first[0]); }
  }

  /** A refusal is summarised at most once per interval, and the summary asks for the posture. */
  function RefusalDue(c: Config, interval: int, lastLogAt: int, log: seq<Entry>, now: int): seq<Entry> {
    if now - lastLogAt < interval then [] else Due(c, log, now).0
  }

  lemma RefuseIsDue(c: Config, interval: int, s: Gate, log: seq<Entry>, now: int)
    requires Told(c, s.gov, log, now) && now > 0
    ensures var (s1, more) := Refuse(c, interval, s, now);
      more == RefusalDue(c, interval, s.lastRefusalLogAt, log, now) && Told(c, s1.gov, log + more, now)
  {
    EvaluateIsDue(c, s.gov, log, now);
    NothingLogged(c, s.gov, log, now);
  }

  /** What one event logs and shows, said of the log before it. */
  ghost predicate Follows(c: Config, interval: int, lastLogAt: int, log: seq<Entry>, e: Timed, more: seq<Entry>,
                          shown: Decision)
  {
    match e.event
    case Read => more == Due(c, log, e.at).0 && shown == Shown(Due(c, log, e.at).1)
    case Accepted => more == if Counts(c, log, e.at, None) then [CurrentAccept(e.at)] else []
    case Refused(broadcastAt) => more == if Counts(c, log, e.at, broadcastAt) then [CurrentReject(e.at)] else []
    case Send(held) =>
      if held then shown == Sent(false) && more == RefusalDue(c, interval, lastLogAt, log, e.at)
      else
        var (first, posture) := Due(c, log, e.at);
        if MayPass(c, log + first, posture) then shown == Sent(true) && more == first + [Dispatched(e.at)]
        else shown == Sent(false) && more == first + RefusalDue(c, interval, lastLogAt, log + first, e.at)
  }

  lemma SendFollows(c: Config, interval: int, s: Gate, log: seq<Entry>, e: Timed)
    requires Told(c, s.gov, log, e.at) && e.at > 0 && e.event.Send?
    ensures var (s1, more, d) := Step(c, interval, s, e);
      Follows(c, interval, s.lastRefusalLogAt, log, e, more, d) && Told(c, s1.gov, log + more, e.at)
  {
    if e.event.held {
      RefuseIsDue(c, interval, s, log, e.at);
    } else {
      EvaluateIsDue(c, s.gov, log, e.at);
      DuePosture(c, log, e.at);
      var (g, posture, first) := Evaluate(c, s.gov, e.at);
      SendIsDue(c, g, log + first, posture, e.at);
      RefuseIsDue(c, interval, s.(gov := g), log + first, e.at);
      Regrouped(log, first, [Dispatched(e.at)]);
      Regrouped(log, first, RefusalDue(c, interval, s.lastRefusalLogAt, log + first, e.at));
    }
  }

  lemma StepFollows(c: Config, interval: int, s: Gate, log: seq<Entry>, e: Timed)
    requires Told(c, s.gov, log, e.at) && e.at > 0
    ensures var (s1, more, d) := Step(c, interval, s, e);
      Follows(c, interval, s.lastRefusalLogAt, log, e, more, d) && Told(c, s1.gov, log + more, e.at)
  {
    match e.event
    case Send(held) => SendFollows(c, interval, s, log, e);
    case Accepted => RecordIsDue(c, s.gov, log, e.at, false, None);
    case Refused(broadcastAt) => RecordIsDue(c, s.gov, log, e.at, true, broadcastAt);
    case Read => EvaluateIsDue(c, s.gov, log, e.at);
  }

  lemma {:induction false} RunTold(c: Config, interval: int, events: seq<Timed>)
    requires ClockRuns(events)
    ensures var (s, log) := Run(c, interval, events); Told(c, s.gov, log, EndTime(events))
    decreases |events|
  {
    if events != [] {
      var front, e := events[..|events| - 1], events[|events| - 1];
      RunTold(c, interval, front);
      var (s, log) := Run(c, interval, front);
      TimePassesTold(c, s.gov, log, EndTime(front), e.at);
      StepFollows(c, interval, s, log, e);
    }
  }

  /**
   In every run on a clock that does not go back, whatever comes next: what the governed gate logs and
   answers is what the log before it calls for.
   */
  lemma RunFollowsLog(c: Config, interval: int, events: seq<Timed>, e: Timed)
    requires ClockRuns(events + [e])
    ensures var (s, log) := Run(c, interval, events);
      var (_, more, d) := Step(c, interval, s, e);
      Follows(c, interval, s.lastRefusalLogAt, log, e, more, d)
  {
    ClockBefore(events, e);
    RunTold(c, interval, events);
    var (s, log) := Run(c, interval, events);
    TimePassesTold(c, s.gov, log, EndTime(events), e.at);
    StepFollows(c, interval, s, log, e);
  }

  lemma ClockBefore(events: seq<Timed>, e: Timed)
    requires ClockRuns(events + [e])
    ensures ClockRuns(events) && EndTime(events) <= e.at && e.at > 0
  {
    var all := events + [e];
    assert all[|events|] == e;
    assert forall i :: 0 <= i < |events| ==> all[i] == events[i];
  }

  // ---------- trials, read off the log ----------

  /** Everything an evaluation logged was due where it stands. */
  predicate EntryDue(c: Config, log: seq<Entry>, k: nat)
    requires k < |log|
  {
    IsMark(log[k]) || log[k].TrialSealed? ==> Due(c, log[..k], log[k].at).0 == [log[k]]
  }

  lemma DueIsShort(c: Config, log: seq<Entry>, now: int)
    ensures |Due(c, log, now).0| <= 1
    ensures forall e :: e in Due(c, log, now).0 ==> e.at == now
  {
  }

  /** The entries of one evaluation, where they stand in a longer log. */
  lemma PieceDue(c: Config, log: seq<Entry>, rest: seq<Entry>, now: int, k: nat)
    requires |log| <= k < |log + Due(c, log, now).0|
    ensures EntryDue(c, log + Due(c, log, now).0 + rest, k)
  {
    DueIsShort(c, log, now);
    var more := log + Due(c, log, now).0 + rest;
    assert k == |log| && more[..k] == log && more[k] == Due(c, log, now).0[0];
  }

  lemma PlainEntryDue(c: Config, log: seq<Entry>, k: nat)
    requires k < |log| && !IsMark(log[k]) && !log[k].TrialSealed?
    ensures EntryDue(c, log, k)
  {
  }

  lemma StepEntriesDue(c: Config, interval: int, lastLogAt: int, log: seq<Entry>, e: Timed, more: seq<Entry>,
                       d: Decision, k: nat)
    requires Follows(c, interval, lastLogAt, log, e, more, d) && |log| <= k < |log + more|
    ensures EntryDue(c, log + more, k)
  {
    match e.event
    case Accepted => PlainEntryDue(c, log + more, k);
    case Refused(_) => PlainEntryDue(c, log + more, k);
    case Read => OnePiece(c, log, more, e.at, k);
    case Send(held) =>
      if held {
        OnePiece(c, log, more, e.at, k);
      } else {
        var first := Due(c, log, e.at).0;
        var rest := if d == Sent(true) then [Dispatched(e.at)]
                    else RefusalDue(c, interval, lastLogAt, log + first, e.at);
        TwoPieces(c, log, rest, e.at, k);
        Regrouped(log, first, rest);
      }
  }

  lemma OnePiece(c: Config, log: seq<Entry>, more: seq<Entry>, now: int, k: nat)
    requires more == [] || more == Due(c, log, now).0
    requires |log| <= k < |log + more|
    ensures EntryDue(c, log + more, k)
  {
    PieceDue(c, log, [], now, k);
    assert log + more + [] == log + more;
  }

  lemma TwoPieces(c: Config, log: seq<Entry>, rest: seq<Entry>, now: int, k: nat)
    requires var log1 := log + Due(c, log, now).0;
      rest == [] || rest == [Dispatched(now)] || rest == Due(c, log1, now).0
    requires |log| <= k < |log + Due(c, log, now).0 + rest|
    ensures EntryDue(c, log + Due(c, log, now).0 + rest, k)
  {
    var log1 := log + Due(c, log, now).0;
    if k < |log1| { PieceDue(c, log, rest, now, k); }
    else if rest == [Dispatched(now)] { PlainEntryDue(c, log1 + rest, k); }
    else { OnePiece(c, log1, rest, now, k); }
  }

  lemma {:induction false} RunEntriesDue(c: Config, interval: int, events: seq<Timed>, k: nat)
    requires ClockRuns(events) && k < |Run(c, interval, events).1|
    ensures EntryDue(c, Run(c, interval, events).1, k)
    decreases |events|
  {
    var front, e := events[..|events| - 1], events[|events| - 1];
    assert events == front + [e];
    RunFollowsLog(c, interval, front, e);
    var (s, log) := Run(c, interval, front);
    var (_, more, d) := Step(c, interval, s, e);
    if k < |log| {
      RunEntriesDue(c, interval, front, k);
      assert (log + more)[..k] == log[..k];
    } else {
      StepEntriesDue(c, interval, s.lastRefusalLogAt, log, e, more, d, k);
    }
  }

  /** Trials do not overlap. */
  lemma {:induction false} OneTrialAtATime(c: Config, log: seq<Entry>, i: nat, j: nat)
    requires WithinTrial(log, i, j) && !Monitor(c, log[..j]).Broken?
    ensures forall k :: i < k < j ==> !IsMark(log[k])
    decreases j
  {
    if j > i + 1 {
      assert log[..j][..j - 1] == log[..j - 1];
      PrefixNotBroken(c, log[..j], j - 1);
      OneTrialAtATime(c, log, i, j - 1);
      TrialCounts(c, log, i, j - 1);
      assert log[..j] == log[..j - 1] + [log[j - 1]];
      MonitorOne(c, log[..j - 1], log[j - 1]);
    }
  }

  /** A stretch of a trial is what the log reads back. */
  lemma {:induction false} WithinReads(log: seq<Entry>, i: nat, j: nat)
    requires i < j <= |log| && log[i].TrialOpened? && forall k :: i < k < j ==> !IsMark(log[k])
    ensures Standing(log[..j]) == Some(log[i]) && Since(log[..j]) == log[i + 1..j]
    decreases j
  {
    assert log[..j][..j - 1] == log[..j - 1] && log[..j][j - 1] == log[j - 1];
    if j == i + 1 {
      assert log[i + 1..j] == [];
    } else {
      WithinReads(log, i, j - 1);
      assert log[i + 1..j] == log[i + 1..j - 1] + [log[j - 1]];
    }
  }

  lemma TrialReads(c: Config, interval: int, events: seq<Timed>, i: nat, j: nat)
    requires ClockRuns(events) && WithinTrial(Run(c, interval, events).1, i, j)
    ensures var log := Run(c, interval, events).1;
      Standing(log[..j]) == Some(log[i]) && Since(log[..j]) == log[i + 1..j]
  {
    var log := Run(c, interval, events).1;
    RunTracks(c, interval, events);
    PrefixNotBroken(c, log, j);
    OneTrialAtATime(c, log, i, j);
    WithinReads(log, i, j);
  }

  lemma {:induction false} SealIsThere(part: seq<Entry>) returns (k: nat)
    requires SealedAt(part).Some?
    ensures k < |part| && part[k].TrialSealed? && part[k].at == SealedAt(part).value
  {
    if part[|part| - 1].TrialSealed? { k := |part| - 1; } else { k := SealIsThere(part[..|part| - 1]); }
  }

  /** A trial clears only if it was sealed a settle time before, and no current rejection came in. */
  lemma OnlyCleanTrialsClear(c: Config, interval: int, events: seq<Timed>, i: nat, j: nat)
    requires ClockRuns(events) && WithinTrial(Run(c, interval, events).1, i, j)
    requires j < |Run(c, interval, events).1| && Run(c, interval, events).1[j].TrialCleared?
    ensures var log := Run(c, interval, events).1;
      && (forall k :: i < k < j ==> !log[k].CurrentReject?)
      && exists s :: i < s < j && log[s].TrialSealed? && log[s].at + c.probeSettleMs <= log[j].at
  {
    var log := Run(c, interval, events).1;
    TrialReads(c, interval, events, i, j);
    RunEntriesDue(c, interval, events, j);
    var part := log[i + 1..j];
    forall k | i < k < j ensures !log[k].CurrentReject? { assert part[k - i - 1] == log[k]; }
    var m := SealIsThere(part);
    assert log[i + 1 + m].TrialSealed?;
  }

  /** The trial of a run is open, rejected or sealed as its part of the log says. */
  ghost predicate TrialStands(c: Config, interval: int, events: seq<Timed>, i: nat) {
    ClockRuns(events) && WithinTrial(Run(c, interval, events).1, i, |Run(c, interval, events).1|)
  }

  lemma TrialNow(c: Config, interval: int, events: seq<Timed>, i: nat)
    requires TrialStands(c, interval, events, i)
    ensures var log := Run(c, interval, events).1;
      !c.paused && Standing(log) == Some(log[i]) && Since(log) == log[i + 1..]
  {
    var log := Run(c, interval, events).1;
    TrialReads(c, interval, events, i, |log|);
    assert log[..|log|] == log && log[i + 1..|log|] == log[i + 1..];
    RunTold(c, interval, events);
  }

  /** After a current rejection the next evaluation, whenever it comes, begins a halt and answers HALTED. */
  lemma RejectedTrialHalts(c: Config, interval: int, events: seq<Timed>, i: nat, k: nat, at: int)
    requires TrialStands(c, interval, events, i) && ClockRuns(events + [Timed(at, Read)])
    requires var log := Run(c, interval, events).1; i < k < |log| && log[k].CurrentReject?
    ensures var (s, log) := Run(c, interval, events);
      var (_, more, d) := Step(c, interval, s, Timed(at, Read));
      && d == Shown(Halted) && |more| == 1 && more[0].HaltBegan? && more[0].at == at
      && more[0].cooldown == Cooldown(c, HaltsInARow(log))
    ensures var s := Run(c, interval, events).0;
      Step(c, interval, s, Timed(at, Send(false))).2 == Sent(false)
  {
    var (s, log) := Run(c, interval, events);
    TrialNow(c, interval, events, i);
    assert Since(log)[k - i - 1].CurrentReject?;
    RunFollowsLog(c, interval, events, Timed(at, Read));
    SameClock(events, Timed(at, Read), Timed(at, Send(false)));
    RunFollowsLog(c, interval, events, Timed(at, Send(false)));
  }

  lemma SameClock(events: seq<Timed>, a: Timed, b: Timed)
    requires ClockRuns(events + [a]) && a.at == b.at
    ensures ClockRuns(events + [b])
  {
    var x, y := events + [a], events + [b];
    assert forall i :: 0 <= i < |y| ==> y[i].at == x[i].at;
  }

  /** A sealed trial without a current rejection clears at the first evaluation a settle time after its seal. */
  lemma SettledTrialClears(c: Config, interval: int, events: seq<Timed>, i: nat, k: nat, at: int)
    requires TrialStands(c, interval, events, i) && ClockRuns(events + [Timed(at, Read)])
    requires var log := Run(c, interval, events).1;
      && i < k < |log| && log[k].TrialSealed? && log[k].at + c.probeSettleMs <= at
      && forall m :: i < m < |log| ==> !log[m].CurrentReject?
    ensures var (s, log) := Run(c, interval, events);
      var (_, more, d) := Step(c, interval, s, Timed(at, Read));
      d == Shown(Normal) && more == [TrialCleared(at)]
  {
    var (s, log) := Run(c, interval, events);
    TrialNow(c, interval, events, i);
    assert forall m :: 0 <= m < |Since(log)| ==> Since(log)[m] == log[i + 1 + m];
    OneSeal(c, interval, events, i, k);
    RunFollowsLog(c, interval, events, Timed(at, Read));
  }

  /** A trial is sealed once. */
  lemma OneSeal(c: Config, interval: int, events: seq<Timed>, i: nat, k: nat)
    requires TrialStands(c, interval, events, i)
    requires var log := Run(c, interval, events).1; i < k < |log| && log[k].TrialSealed?
    ensures SealedAt(Since(Run(c, interval, events).1)) == Some(Run(c, interval, events).1[k].at)
  {
    var log := Run(c, interval, events).1;
    TrialNow(c, interval, events, i);
    SealSeen(log[i + 1..], k - i - 1);
    var m := SealIsThere(log[i + 1..]);
    if i + 1 + m < k { NoSecondSeal(c, interval, events, i, i + 1 + m, k); }
    if k < i + 1 + m { NoSecondSeal(c, interval, events, i, k, i + 1 + m); }
  }

  lemma NoSecondSeal(c: Config, interval: int, events: seq<Timed>, i: nat, lo: nat, hi: nat)
    requires ClockRuns(events) && WithinTrial(Run(c, interval, events).1, i, hi)
    requires i < lo < hi < |Run(c, interval, events).1| && Run(c, interval, events).1[lo].TrialSealed?
    ensures !Run(c, interval, events).1[hi].TrialSealed?
  {
    TrialReads(c, interval, events, i, hi);
    RunEntriesDue(c, interval, events, hi);
    SealSeen(Run(c, interval, events).1[i + 1..hi], lo - i - 1);
  }

  lemma {:induction false} SealSeen(part: seq<Entry>, k: nat)
    requires k < |part| && part[k].TrialSealed?
    ensures SealedAt(part).Some?
  {
    if !part[|part| - 1].TrialSealed? { SealSeen(part[..|part| - 1], k); }
  }
}
